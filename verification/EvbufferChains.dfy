/** Byte buffers made of linked chains (libevent2/buffer.c): the structure, and what adds or removes
    bytes at either end. */
module EvbufferChains {
  import opened Octets
  import opened ByteLists

  const CHAIN_SIZE: nat := 48
  const MIN_BUFFER_SIZE: nat := 1024
  const MAX_AUTO_SIZE: nat := 4096
  const MAX_TO_REALIGN: nat := 2048

  /** struct evbuffer_chain: off bytes of data behind misalign unused ones. */
  class Chain {
    var next: Chain?
    var misalign: nat
    var off: nat
    const buffer: array<Byte>

    /** The chain's data, as the list of pieces has it. */
    ghost predicate Holds(p: seq<Byte>)
      reads this`misalign, this`off, buffer
    {
      off == |p| && misalign + off <= buffer.Length && 0 < buffer.Length && buffer[misalign..misalign + off] == p
    }

    /** evbuffer_chain_new: the next largest block, a doubling of the smallest, that has the room. */
    constructor New(size: nat)
      ensures fresh(buffer) && next == null && misalign == 0 && Holds([])
      ensures size <= buffer.Length
      ensures buffer.Length + CHAIN_SIZE == MIN_BUFFER_SIZE || buffer.Length + CHAIN_SIZE < 2 * (size + CHAIN_SIZE)
    {
      var toAlloc: nat := MIN_BUFFER_SIZE;
      while toAlloc < size + CHAIN_SIZE
        invariant MIN_BUFFER_SIZE <= toAlloc
        invariant toAlloc == MIN_BUFFER_SIZE || toAlloc < 2 * (size + CHAIN_SIZE)
      {
        toAlloc := 2 * toAlloc;
      }
      buffer := new Byte[toAlloc - CHAIN_SIZE];
      next, misalign, off := null, 0, 0;
    }

    /** memcpy into the chain's memory. */
    method Store(at: nat, data: seq<Byte>)
      requires at + |data| <= buffer.Length
      modifies buffer
      ensures buffer[at..at + |data|] == data
      ensures buffer[..at] == old(buffer[..at])
      ensures buffer[at + |data|..] == old(buffer[at + |data|..])
    {
      forall k | 0 <= k < |data| {
        buffer[at + k] := data[k];
      }
    }

    /** Writes behind the data. */
    method Append(data: seq<Byte>, ghost p: seq<Byte>)
      requires Holds(p) && misalign + off + |data| <= buffer.Length
      modifies this`off, buffer
      ensures Holds(p + data)
    {
      Store(misalign + off, data);
      assert buffer[misalign..misalign + off] == buffer[..misalign + off][misalign..];
      assert p == old(buffer[..misalign + off])[misalign..];
      off := off + |data|;
      assert buffer[misalign..misalign + off] == p + buffer[misalign + |p|..misalign + off];
    }

    /** Writes in front of the data. */
    method Prepend(data: seq<Byte>, ghost p: seq<Byte>)
      requires Holds(p) && |data| <= misalign
      modifies this`misalign, this`off, buffer
      ensures Holds(data + p) && misalign == old(misalign) - |data| && off == old(off) + |data|
    {
      SliceOfRest(buffer[..], misalign, off);
      Store(misalign - |data|, data);
      SliceOfRest(buffer[..], misalign, off);
      misalign, off := misalign - |data|, off + |data|;
      assert buffer[misalign..misalign + off] == data + buffer[misalign + |data|..misalign + off];
    }

    /** evbuffer_chain_align */
    method Align(ghost p: seq<Byte>)
      requires Holds(p)
      modifies this`misalign, buffer
      ensures Holds(p) && misalign == 0
    {
      Store(0, buffer[misalign..misalign + off]);
      misalign := 0;
    }

    /** evbuffer_chain_should_realign */
    predicate ShouldRealign(size: nat)
      reads this
    {
      && off + size <= buffer.Length
      && off < buffer.Length / 2
      && off <= MAX_TO_REALIGN
    }
  }

  lemma SliceOfRest(s: seq<Byte>, from: nat, n: nat)
    requires from + n <= |s|
    ensures s[from..][..n] == s[from..from + n]
  {
  }

  /** A pointer to one of the pointers that link the chains: a buffer's first, or a chain's next. */
  datatype Link = FirstOf(buf: Evbuffer) | NextOf(chain: Chain)

  /** What such a pointer leads to. */
  function Target(link: Link): Chain?
    reads match link { case FirstOf(b) => {b as object} case NextOf(c) => {c as object} }
  {
    match link
    case FirstOf(b) => b.first
    case NextOf(c) => c.next
  }

  function ChainAt(cs: seq<Chain>, i: nat): Chain? {
    if i < |cs| then cs[i] else null
  }

  /** The pointer that leads to chain i of a buffer. */
  function LinkAt(buf: Evbuffer, cs: seq<Chain>, i: int): Link
    requires i <= |cs|
  {
    if i <= 0 then FirstOf(buf) else NextOf(cs[i - 1])
  }

  ghost function Buffers(cs: seq<Chain>): set<array<Byte>> {
    set i | 0 <= i < |cs| :: cs[i].buffer
  }

  /** No chain and no buffer is the memory of a chain. */
  lemma MemoryApart(cs: seq<Chain>, o: object)
    ensures o is Chain || o is Evbuffer ==> forall b :: b in Buffers(cs) ==> b as object != o
    ensures o is Evbuffer || o is array<Byte> ==> forall c :: c in cs ==> c as object != o
  {
  }

  ghost predicate Distinct(cs: seq<Chain>) {
    forall i, j :: 0 <= i < j < |cs| ==> cs[i] != cs[j] && cs[i].buffer != cs[j].buffer
  }

  /** Two lists of chains without a chain or its memory in common. */
  ghost predicate Apart(a: seq<Chain>, b: seq<Chain>) {
    forall i, j :: 0 <= i < |a| && 0 <= j < |b| ==> a[i] != b[j] && a[i].buffer != b[j].buffer
  }

  function Head(cs: seq<Chain>, tail: Chain?): Chain? {
    if cs == [] then tail else cs[0]
  }

  /** Chain i is linked to the next one, or the last one to the tail, and holds piece i. */
  ghost predicate CellOk(cs: seq<Chain>, ps: seq<seq<Byte>>, tail: Chain?, i: nat)
    requires i < |cs| == |ps|
    reads cs`next, cs`misalign, cs`off, Buffers(cs)
  {
    cs[i].next == (if i + 1 < |cs| then cs[i + 1] else tail) && cs[i].Holds(ps[i])
  }

  /** Distinct chains, linked up to the tail, that hold the pieces. */
  ghost predicate Segment(cs: seq<Chain>, ps: seq<seq<Byte>>, tail: Chain?)
    reads cs`next, cs`misalign, cs`off, Buffers(cs)
  {
    && |cs| == |ps| && Distinct(cs)
    && forall i {:trigger CellOk(cs, ps, tail, i)} :: 0 <= i < |cs| ==> CellOk(cs, ps, tail, i)
  }

  lemma SegmentSplit(cs: seq<Chain>, ps: seq<seq<Byte>>, tail: Chain?, i: nat)
    requires Segment(cs, ps, tail) && i <= |cs|
    ensures |ps| == |cs| && Segment(cs[..i], ps[..i], Head(cs[i..], tail)) && Segment(cs[i..], ps[i..], tail)
    ensures Apart(cs[..i], cs[i..])
  {
    hide Chain.Holds;
    forall k: nat | k < i ensures CellOk(cs[..i], ps[..i], Head(cs[i..], tail), k) {
      assert CellOk(cs, ps, tail, k);
    }
    forall k: nat | k < |cs| - i ensures CellOk(cs[i..], ps[i..], tail, k) {
      assert CellOk(cs, ps, tail, i + k);
    }
  }

  lemma SegmentJoin(a: seq<Chain>, pa: seq<seq<Byte>>, b: seq<Chain>, pb: seq<seq<Byte>>, tail: Chain?)
    requires Segment(a, pa, Head(b, tail)) && Segment(b, pb, tail) && Apart(a, b)
    ensures Segment(a + b, pa + pb, tail)
  {
    hide Chain.Holds;
    forall k: nat | k < |a + b| ensures CellOk(a + b, pa + pb, tail, k) {
      if k < |a| {
        assert CellOk(a, pa, Head(b, tail), k);
      } else {
        assert CellOk(b, pb, tail, k - |a|);
      }
    }
  }

  lemma SegmentOne(c: Chain, p: seq<Byte>, tail: Chain?)
    requires c.next == tail && c.Holds(p)
    ensures Segment([c], [p], tail)
  {
    hide Chain.Holds;
  }

  lemma SegmentSnoc(cs: seq<Chain>, ps: seq<seq<Byte>>, c: Chain, p: seq<Byte>, tail: Chain?)
    requires Segment(cs, ps, c) && c.next == tail && c.Holds(p) && c !in cs && c.buffer !in Buffers(cs)
    ensures Segment(cs + [c], ps + [p], tail)
  {
    hide Chain.Holds;
    SegmentOne(c, p, tail);
    SegmentJoin(cs, ps, [c], [p], tail);
  }

  lemma SegmentCons(c: Chain, p: seq<Byte>, cs: seq<Chain>, ps: seq<seq<Byte>>, tail: Chain?)
    requires Segment(cs, ps, tail) && c.next == Head(cs, tail) && c.Holds(p) && c !in cs && c.buffer !in Buffers(cs)
    ensures Segment([c] + cs, [p] + ps, tail)
  {
    hide Chain.Holds;
    SegmentOne(c, p, c.next);
    SegmentJoin([c], [p], cs, ps, tail);
  }

  lemma SegmentLengths(cs: seq<Chain>, ps: seq<seq<Byte>>, tail: Chain?)
    requires Segment(cs, ps, tail)
    ensures |cs| == |ps|
  {
  }

  /** Chain i of a segment, apart from what is before and behind it. */
  lemma SegmentAt(cs: seq<Chain>, ps: seq<seq<Byte>>, tail: Chain?, i: nat)
    requires Segment(cs, ps, tail) && i < |cs|
    ensures |ps| == |cs| && Segment(cs[..i], ps[..i], cs[i]) && Segment(cs[i + 1..], ps[i + 1..], tail)
    ensures cs[i].next == Head(cs[i + 1..], tail) && cs[i].Holds(ps[i])
    ensures Apart(cs[..i], cs[i + 1..])
    ensures cs[i] !in cs[..i] && cs[i] !in cs[i + 1..]
    ensures cs[i].buffer !in Buffers(cs[..i]) && cs[i].buffer !in Buffers(cs[i + 1..])
  {
    hide Chain.Holds;
    SegmentSplit(cs, ps, tail, i);
    SegmentSplit(cs, ps, tail, i + 1);
    assert CellOk(cs, ps, tail, i);
  }

  lemma TargetAt(buf: Evbuffer, i: nat)
    requires Segment(buf.chains, buf.pieces, null) && buf.first == ChainAt(buf.chains, 0) && i <= |buf.chains|
    ensures Target(LinkAt(buf, buf.chains, i)) == ChainAt(buf.chains, i)
  {
    if i > 0 {
      assert CellOk(buf.chains, buf.pieces, null, i - 1);
    }
  }

  /** No empty chain: what every buffer keeps that is never added nothing while it has no chain. */
  predicate NoneEmpty(ps: seq<seq<Byte>>) {
    forall i :: 0 <= i < |ps| ==> ps[i] != []
  }

  /** struct evbuffer, without callbacks and locks. */
  class Evbuffer {
    var first: Chain?
    var last: Chain?
    var lastWithDatap: Link
    var totalLen: nat
    var freezeStart: bool
    var freezeEnd: bool
    ghost var chains: seq<Chain>
    ghost var pieces: seq<seq<Byte>>

    /** The chains hold the pieces, the ends and the length are right. */
    ghost predicate Holding()
      reads this, chains, Buffers(chains)
    {
      && Segment(chains, pieces, null)
      && first == ChainAt(chains, 0)
      && last == (if chains == [] then null else chains[|chains| - 1])
      && totalLen == |Flat(pieces)|
    }

    /** And the last chain is the last one with data, which is what lastWithDatap leads to. */
    ghost predicate Valid()
      reads this, chains, Buffers(chains)
    {
      Holding() && Ended()
    }

    ghost predicate Ended()
      reads this
    {
      && lastWithDatap == LinkAt(this, chains, |chains| - 1)
      && (|pieces| > 1 ==> pieces[|pieces| - 1] != [])
    }

    /** The one byte sequence the chains stand for. */
    ghost function Content(): seq<Byte>
      reads this`pieces
    {
      Flat(pieces)
    }

    /** evbuffer_new */
    constructor ()
      ensures Valid() && Content() == [] && NoneEmpty(pieces) && chains == [] && first == null && !freezeStart
        && !freezeEnd
    {
      first, last := null, null;
      lastWithDatap := FirstOf(this);
      totalLen, freezeStart, freezeEnd := 0, false, false;
      chains, pieces := [], [];
    }

    /** Puts a chain with data behind the last one; the caller counts its bytes. */
    method LinkLast(chain: Chain, ghost p: seq<Byte>)
      requires Valid() && chain.Holds(p) && p != [] && chain.next == null
      requires chain !in chains && chain.buffer !in Buffers(chains)
      requires chains != [] && pieces != [] && pieces[|pieces| - 1] != []
      modifies this`last, this`lastWithDatap, this`totalLen, this`chains, this`pieces, last`next
      ensures Valid()
      ensures last == chain && chains == old(chains) + [chain] && pieces == old(pieces) + [p]
    {
      hide Flat, Chain.Holds, Segment, Distinct, Apart;
      FlatAppend(pieces, p);
      HoldsLength(chain, p);
      LinkBehind(last, chain, chains, pieces, p);
      assert Segment(chains + [chain], pieces + [p], null);
      MemoryApart(chains + [chain], this);
      if chain.off != 0 { lastWithDatap := NextOf(last); }
      last := chain;
      totalLen := totalLen + chain.off;
      chains, pieces := chains + [chain], pieces + [p];
    }

    /** evbuffer_chain_insert: the chain goes behind the last one with data, in place of an empty chain
        there. */
    method ChainInsert(chain: Chain, ghost p: seq<Byte>)
      requires Valid() && chain.Holds(p) && chain.next == null
      requires chain !in chains && chain.buffer !in Buffers(chains)
      requires p != [] || chains == []
      modifies this`first, this`last, this`lastWithDatap, this`totalLen, this`chains, this`pieces
      modifies chains`next
      ensures Valid()
      ensures Content() == old(Content()) + p && pieces == Trimmed(old(pieces)) + [p]
      ensures last == chain && (chains == old(chains) + [chain] || chains == [chain])
    {
      hide Flat, Chain.Holds, Segment, Distinct, Apart;
      ghost var n := |chains|;
      SegmentLengths(chains, pieces, null);
      FlatTrimmed(pieces);
      FlatAppend(Trimmed(pieces), p);
      HoldsLength(chain, p);
      TargetAt(this, if n == 0 then 0 else n - 1);
      if Target(lastWithDatap) == null {
        first, last := chain, chain;
        chains, pieces := [chain], [p];
        totalLen := totalLen + chain.off;
        SegmentOne(chain, p, null);
        assert [] + pieces == pieces;
      } else {
        SegmentAt(chains, pieces, null, n - 1);
        HoldsLength(chains[n - 1], pieces[n - 1]);
        TargetAt(this, n);
        var ch := lastWithDatap;
        ghost var i := n - 1;
        while Target(ch) != null && Target(ch).off != 0
          invariant n - 1 <= i <= n && ch == LinkAt(this, chains, i)
          invariant i == n ==> pieces[n - 1] != []
          decreases n - i
        {
          ch, i := NextOf(Target(ch)), i + 1;
        }
        if Target(ch) == null {
          LinkLast(chain, p);
        } else {
          // an empty chain behind the data is the buffer's only one
          ch.buf.first := chain;
          last := chain;
          chains, pieces := [chain], [p];
          totalLen := totalLen + chain.off;
          SegmentOne(chain, p, null);
          assert [] + pieces == pieces;
        }
      }
    }

    /** Fills the space behind the data of the last chain, as evbuffer_add does. */
    method WriteLast(data: seq<Byte>)
      requires Holding() && last != null && last.misalign + last.off + |data| <= last.buffer.Length
      modifies this`totalLen, this`pieces, last`off, last.buffer
      ensures Holding() && Content() == old(Content()) + data
      ensures (old(Ended()) ==> Ended()) && (data == [] ==> (Ended() <==> old(Ended())))
      ensures pieces == old(pieces[..|pieces| - 1] + [pieces[|pieces| - 1] + data])
    {
      hide Flat, Chain.Holds, Segment, Distinct;
      SegmentLengths(chains, pieces, null);
      ghost var n := |pieces| - 1;
      ghost var front, p := pieces[..n], pieces[n];
      SegmentAt(chains, pieces, null, n);
      assert chains == chains[..n] + [last] && pieces == front + [p];
      FlatExtended(front, p, data);
      last.Append(data, p);
      totalLen := totalLen + |data|;
      pieces := front + [p + data];
      SegmentSnoc(chains[..n], front, last, p + data, null);
    }

    lemma LastFacts()
      requires Holding() && last != null
      ensures chains != [] && |pieces| == |chains| && last == chains[|chains| - 1] && last.Holds(pieces[|pieces| - 1])
      ensures last in chains && last.buffer in Buffers(chains)
      ensures last.off == |pieces[|pieces| - 1]| && last.misalign + last.off <= last.buffer.Length
    {
      SegmentAt(chains, pieces, null, |chains| - 1);
      HoldsLength(last, pieces[|pieces| - 1]);
    }

    /** evbuffer_chain_align of the last chain moves bytes, but none of the buffer's content. */
    method RealignLast()
      requires Valid() && last != null
      modifies last`misalign, last.buffer
      ensures Valid() && last.misalign == 0
    {
      hide Flat, Chain.Holds, Segment, Distinct, Apart;
      LastFacts();
      ghost var n := |chains| - 1;
      SegmentAt(chains, pieces, null, n);
      assert chains == chains[..n] + [last] && pieces == pieces[..n] + [pieces[n]];
      last.Align(pieces[n]);
      SegmentSnoc(chains[..n], pieces[..n], last, pieces[n], null);
    }

    lemma FirstFacts()
      requires Valid() || Holding()
      ensures Holding() && (Valid() <==> Ended()) && |pieces| == |chains|
      ensures (first == null <==> chains == []) && (last == null <==> chains == [])
      ensures first != null ==> first == chains[0]
    {
    }

    /** evbuffer_add where the data does not fit the last chain: it is filled, and the rest goes into a
        new one at least twice its size. */
    method AddChain(data: seq<Byte>)
      requires Valid() && last != null && last.buffer.Length < last.misalign + last.off + |data|
      modifies this`first, this`last, this`lastWithDatap, this`totalLen, this`chains, this`pieces
      modifies chains, Buffers(chains)
      ensures Valid()
      ensures Content() == old(Content()) + data
      ensures old(NoneEmpty(pieces)) ==> NoneEmpty(pieces)
      ensures forall c :: c in chains ==> c in old(chains) || (fresh(c) && fresh(c.buffer))
    {
      hide Flat, Chain.Holds, Evbuffer.Valid, Evbuffer.Ended;
      FirstFacts();
      LastFacts();
      var remain := last.buffer.Length - last.misalign - last.off;
      var toAlloc := last.buffer.Length;
      if toAlloc <= MAX_AUTO_SIZE / 2 { toAlloc := 2 * toAlloc; }
      if |data| > toAlloc { toAlloc := |data|; }
      var tmp := new Chain.New(toAlloc);
      assert data == data[..remain] + data[remain..];
      if remain > 0 { WriteLast(data[..remain]); }
      FirstFacts();
      assert [] + data[remain..] == data[remain..];
      tmp.Append(data[remain..], []);
      Associative(old(Content()), data[..remain], data[remain..]);
      ChainInsert(tmp, data[remain..]);
    }

    /** evbuffer_add once there is a last chain. */
    method AddBehind(data: seq<Byte>)
      requires last != null && (Valid() || (Holding() && data == []))
      modifies this`first, this`last, this`lastWithDatap, this`totalLen, this`chains, this`pieces
      modifies chains, Buffers(chains)
      ensures Holding() && (old(Valid()) ==> Valid()) && (data == [] ==> (Valid() <==> old(Valid())))
      ensures Content() == old(Content()) + data
      ensures old(NoneEmpty(pieces)) ==> NoneEmpty(pieces)
      ensures old(pieces == [[]]) && |data| <= old(last.buffer.Length - last.misalign - last.off) ==> pieces == [data]
      ensures data == [] ==> pieces == old(pieces)
      ensures forall c :: c in chains ==> c in old(chains) || (fresh(c) && fresh(c.buffer))
    {
      hide Flat, Chain.Holds, Segment, Distinct, Apart, Evbuffer.Holding, Evbuffer.Valid, Evbuffer.Ended;
      FirstFacts();
      LastFacts();
      var remain := last.buffer.Length - last.misalign - last.off;
      if remain >= |data| {
        WriteNothing(pieces);
        assert [] + data == data;
        WriteLast(data);
        FirstFacts();
      } else if last.ShouldRealign(|data|) {
        RealignLast();
        FirstFacts();
        WriteLast(data);
        FirstFacts();
      } else {
        AddChain(data);
        FirstFacts();
      }
    }

    /** evbuffer_add */
    method Add(data: seq<Byte>) returns (result: int)
      requires Valid() || (Holding() && last != null && data == [])
      modifies this`first, this`last, this`lastWithDatap, this`totalLen, this`chains, this`pieces
      modifies chains, Buffers(chains)
      ensures Holding() && (old(Valid()) ==> Valid()) && result == if freezeEnd then -1 else 0
      ensures Content() == old(Content()) + if freezeEnd then [] else data
      ensures data == [] && old(last) != null ==> (Valid() <==> old(Valid()))
      ensures old(NoneEmpty(pieces)) && (data != [] || old(first) != null || freezeEnd) ==> NoneEmpty(pieces)
      ensures old(first) == null && !freezeEnd ==> pieces == [data]
      ensures data == [] && old(first) != null ==> pieces == old(pieces)
      ensures forall c :: c in chains ==> c in old(chains) || (fresh(c) && fresh(c.buffer))
    {
      hide Flat, Chain.Holds, Segment, Distinct, Apart, Evbuffer.Holding, Evbuffer.Valid, Evbuffer.Ended;
      FirstFacts();
      if freezeEnd { return -1; }
      if last == null {
        var chain := new Chain.New(|data|);
        ChainInsert(chain, []);
        FirstFacts();
      }
      AddBehind(data);
      return 0;
    }

    /** Fills the space in front of the data of the first chain, as evbuffer_prepend does. */
    method WriteFirst(data: seq<Byte>)
      requires Valid() && first != null && |data| <= first.misalign
      modifies this`totalLen, this`pieces, first`misalign, first`off, first.buffer
      ensures Valid() && first.misalign == old(first.misalign) - |data| && first.off == old(first.off) + |data|
      ensures Content() == data + old(Content()) && pieces == old([data + pieces[0]] + pieces[1..])
    {
      hide Flat, Chain.Holds, Segment, Distinct, Apart;
      SegmentLengths(chains, pieces, null);
      SegmentAt(chains, pieces, null, 0);
      ghost var cs, ps, p := chains[1..], pieces[1..], pieces[0];
      assert chains == [first] + cs && pieces == [p] + ps;
      FlatPreceded(data, p, ps);
      first.Prepend(data, p);
      totalLen := totalLen + |data|;
      pieces := [data + p] + ps;
      SegmentCons(first, data + p, cs, ps, null);
    }

    /** An empty first chain is used from its end. */
    method TurnFirst()
      requires Valid() && first != null && first.off == 0
      modifies first`misalign
      ensures Valid() && first.misalign == first.buffer.Length > 0
    {
      hide Flat, Chain.Holds, Segment, Distinct, Apart;
      SegmentLengths(chains, pieces, null);
      SegmentAt(chains, pieces, null, 0);
      ghost var cs, ps, p := chains[1..], pieces[1..], pieces[0];
      assert chains == [first] + cs && pieces == [p] + ps;
      HoldsLength(first, p);
      first.misalign := first.buffer.Length;
      HoldsNothing(first);
      SegmentCons(first, p, cs, ps, null);
    }

    /** Puts a new chain with data in front of the first one. */
    method LinkFirst(tmp: Chain, ghost p: seq<Byte>)
      requires Valid() && tmp.Holds(p)
      requires tmp !in chains && tmp.buffer !in Buffers(chains)
      requires chains != [] && first.off != 0
      modifies this`first, this`lastWithDatap, this`totalLen, this`chains, this`pieces, tmp`next
      ensures Valid() && Content() == p + old(Content())
      ensures chains == [tmp] + old(chains) && pieces == [p] + old(pieces)
    {
      hide Flat, Chain.Holds, Segment, Distinct, Apart;
      SegmentLengths(chains, pieces, null);
      SegmentAt(chains, pieces, null, 0);
      HoldsLength(first, pieces[0]);
      HoldsLength(tmp, p);
      FlatPrepend(p, pieces);
      var chain := first;
      first := tmp;
      if lastWithDatap == FirstOf(this) { lastWithDatap := NextOf(tmp); }
      tmp.next := chain;
      totalLen := totalLen + tmp.off;
      chains, pieces := [tmp] + chains, [p] + pieces;
      SegmentCons(tmp, p, old(chains), old(pieces), null);
    }

    /** A new chain with the data at the end of its memory. */
    method NewLast(data: seq<Byte>) returns (tmp: Chain)
      ensures fresh(tmp) && fresh(tmp.buffer) && tmp.Holds(data)
    {
      tmp := new Chain.New(|data|);
      tmp.misalign := tmp.buffer.Length;
      tmp.Prepend(data, []);
      assert data + [] == data;
    }

    /** evbuffer_prepend where the data does not fit in front of the first chain's: the space there is
        filled from the end of the data, and the rest goes into a new chain. */
    method PrependChain(data: seq<Byte>)
      requires Valid() && first != null && first.misalign < |data| && (first.off == 0 ==> first.misalign > 0)
      modifies this`first, this`lastWithDatap, this`totalLen, this`chains, this`pieces, first, first.buffer
      ensures Valid() && Content() == data + old(Content())
      ensures old(NoneEmpty(pieces)) ==> NoneEmpty(pieces)
      ensures forall c :: c in chains ==> c in old(chains) || (fresh(c) && fresh(c.buffer))
    {
      hide Flat, Chain.Holds, Evbuffer.Valid;
      var datlen := |data| - first.misalign;
      assert data == data[..datlen] + data[datlen..];
      FirstFacts();
      if first.misalign != 0 { WriteFirst(data[datlen..]); }
      Associative(data[..datlen], data[datlen..], old(Content()));
      FirstFacts();
      assert forall b :: b in Buffers(chains) ==> allocated(b);
      var tmp := NewLast(data[..datlen]);
      LinkFirst(tmp, data[..datlen]);
    }

    /** evbuffer_prepend */
    method Prepend(data: seq<Byte>) returns (result: int)
      requires Valid()
      modifies this`first, this`last, this`lastWithDatap, this`totalLen, this`chains, this`pieces
      modifies chains, Buffers(chains)
      ensures Valid() && result == if freezeStart then -1 else 0
      ensures Content() == (if freezeStart then [] else data) + old(Content())
      ensures old(NoneEmpty(pieces)) && (data != [] || old(first) != null || freezeStart) ==> NoneEmpty(pieces)
      ensures forall c :: c in chains ==> c in old(chains) || (fresh(c) && fresh(c.buffer))
    {
      hide Flat, Chain.Holds, Evbuffer.Valid;
      FirstFacts();
      if freezeStart { return -1; }
      var chain := first;
      if chain == null {
        chain := new Chain.New(|data|);
        ChainInsert(chain, []);
        FirstFacts();
      }
      if chain.off == 0 { TurnFirst(); }
      if chain.misalign >= |data| {
        WriteFirst(data);
        return 0;
      }
      PrependChain(data);
      return 0;
    }
  }

  /** Links a chain behind the last one of a list. */
  method LinkBehind(last: Chain, chain: Chain, ghost cs: seq<Chain>, ghost ps: seq<seq<Byte>>, ghost p: seq<Byte>)
    requires Segment(cs, ps, null) && cs != [] && last == cs[|cs| - 1] && chain.Holds(p) && chain.next == null
    requires chain !in cs && chain.buffer !in Buffers(cs)
    modifies last`next
    ensures Segment(cs + [chain], ps + [p], null) && |ps| == |cs|
  {
    hide Flat, Chain.Holds, Segment, Distinct, Apart;
    SegmentLengths(cs, ps, null);
    ghost var n := |cs| - 1;
    SegmentAt(cs, ps, null, n);
    assert cs == cs[..n] + [last] && ps == ps[..n] + [ps[n]];
    last.next := chain;
    SegmentSnoc(cs[..n], ps[..n], last, ps[n], chain);
    SegmentSnoc(cs, ps, chain, p, null);
  }

  lemma HoldsNothing(c: Chain)
    requires c.off == 0 && c.misalign <= c.buffer.Length && 0 < c.buffer.Length
    ensures c.Holds([])
  {
  }

  lemma HoldsLength(c: Chain, p: seq<Byte>)
    requires c.Holds(p)
    ensures c.off == |p| && c.misalign + c.off <= c.buffer.Length && 0 < c.buffer.Length
    ensures c.buffer[c.misalign..c.misalign + c.off] == p
  {
  }

  /** A list of pieces without the empty piece at its end. */
  lemma WriteNothing(ps: seq<seq<Byte>>)
    ensures ps != [] ==> ps[..|ps| - 1] + [ps[|ps| - 1] + []] == ps
  {
    if ps != [] { assert ps[|ps| - 1] + [] == ps[|ps| - 1]; }
  }

  ghost function Trimmed(ps: seq<seq<Byte>>): seq<seq<Byte>> {
    if ps != [] && ps[|ps| - 1] == [] then ps[..|ps| - 1] else ps
  }

  lemma FlatTrimmed(ps: seq<seq<Byte>>)
    ensures Flat(Trimmed(ps)) == Flat(ps)
  {
    if ps != [] && ps[|ps| - 1] == [] {
      assert ps[..|ps| - 1] + [[]] == ps;
      FlatAppend(ps[..|ps| - 1], []);
    }
  }

  /** A buffer of which nothing changed is valid still, with the same content. */
  twostate lemma ValidFramed(o: Evbuffer)
    requires old(o.Valid()) && unchanged(o)
    requires forall c :: c in o.chains ==> unchanged(c)
    requires forall m :: m in Buffers(o.chains) ==> unchanged(m)
    ensures o.Valid() && o.Content() == old(o.Content())
  {
    hide Flat;
    var cs, ps := o.chains, o.pieces;
    forall i: nat | i < |cs| ensures CellOk(cs, ps, null, i) {
      assert old(CellOk(cs, ps, null, i)) && cs[i] in cs && cs[i].buffer in Buffers(cs);
      assert cs[i].buffer[..] == old(cs[i].buffer[..]);
    }
  }
}
