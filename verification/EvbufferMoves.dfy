/** Moving chains from one buffer to another without copying their bytes (libevent2/buffer.c). */
module EvbufferMoves {
  import opened Octets
  import opened ByteLists
  import opened EvbufferChains
  import opened EvbufferRemoval

  lemma ApartBy(a: seq<Chain>, b: seq<Chain>, a': seq<Chain>, b': seq<Chain>)
    requires Apart(a, b)
    requires forall c :: c in a' ==> c in a
    requires forall c :: c in b' ==> c in b
    ensures Apart(a', b')
  {
    forall i, j | 0 <= i < |a'| && 0 <= j < |b'| ensures a'[i] != b'[j] && a'[i].buffer != b'[j].buffer {
      assert a'[i] in a && b'[j] in b;
    }
  }

  lemma ApartFlips(a: seq<Chain>, b: seq<Chain>)
    ensures Apart(a, b) <==> Apart(b, a)
  {
  }

  lemma ApartAt(a: seq<Chain>, b: seq<Chain>, i: nat)
    requires Apart(a, b) && i < |a|
    ensures a[i] !in b && a[i].buffer !in Buffers(b)
  {
  }

  /** ZERO_CHAIN */
  method ZeroChain(buf: Evbuffer)
    modifies buf`first, buf`last, buf`lastWithDatap, buf`totalLen, buf`chains, buf`pieces
    ensures buf.Valid() && buf.chains == [] && buf.pieces == []
  {
    buf.first, buf.last := null, null;
    buf.lastWithDatap := FirstOf(buf);
    buf.totalLen := 0;
    buf.chains, buf.pieces := [], [];
  }

  /** COPY_CHAIN: the one buffer's list becomes the other's. */
  method CopyChains(dst: Evbuffer, src: Evbuffer)
    requires src.Valid() && dst != src
    modifies dst`first, dst`last, dst`lastWithDatap, dst`totalLen, dst`chains, dst`pieces
    ensures dst.Valid() && dst.chains == src.chains && dst.pieces == src.pieces
  {
    hide Flat, Segment;
    MemoryApart(src.chains, dst);
    dst.first := src.first;
    if src.lastWithDatap == FirstOf(src) {
      dst.lastWithDatap := FirstOf(dst);
    } else {
      dst.lastWithDatap := src.lastWithDatap;
    }
    dst.last := src.last;
    dst.totalLen := src.totalLen;
    dst.chains, dst.pieces := src.chains, src.pieces;
    SegmentLengths(src.chains, src.pieces, null);
  }

  /** Links the last chain of one list to the first of another. */
  method LinkLists(last: Chain, head: Chain?, ghost cs: seq<Chain>, ghost ps: seq<seq<Byte>>,
                   ghost ds: seq<Chain>, ghost qs: seq<seq<Byte>>)
    requires Segment(cs, ps, null) && cs != [] && last == cs[|cs| - 1]
    requires Segment(ds, qs, null) && head == Head(ds, null) && Apart(cs, ds)
    modifies last`next
    ensures Segment(cs + ds, ps + qs, null)
  {
    hide Flat, Chain.Holds, Segment, Distinct, Apart;
    ghost var n := |cs| - 1;
    SegmentLengths(cs, ps, null);
    SegmentAt(cs, ps, null, n);
    ApartAt(cs, ds, n);
    assert cs == cs[..n] + [last] && ps == ps[..n] + [ps[n]];
    MemoryApart(ds, last);
    MemoryApart(cs, last);
    last.next := head;
    SegmentSnoc(cs[..n], ps[..n], last, ps[n], head);
    SegmentJoin(cs, ps, ds, qs, null);
  }

  /** APPEND_CHAIN */
  method AppendChains(dst: Evbuffer, src: Evbuffer)
    requires dst.Valid() && src.Valid() && dst != src && Apart(dst.chains, src.chains)
    requires dst.chains != [] && src.totalLen != 0
    modifies dst`last, dst`lastWithDatap, dst`totalLen, dst`chains, dst`pieces, dst.last`next
    ensures dst.Valid() && dst.chains == old(dst.chains) + src.chains && dst.pieces == old(dst.pieces) + src.pieces
  {
    hide Flat, Chain.Holds, Segment, Distinct, Apart;
    ghost var cs, ps := dst.chains, dst.pieces;
    SegmentLengths(cs, ps, null);
    SegmentLengths(src.chains, src.pieces, null);
    SomePiece(src);
    FlatConcat(ps, src.pieces);
    MemoryApart(cs + src.chains, dst);
    LinkLists(dst.last, src.first, cs, ps, src.chains, src.pieces);
    if src.lastWithDatap == FirstOf(src) {
      dst.lastWithDatap := NextOf(dst.last);
    } else {
      dst.lastWithDatap := src.lastWithDatap;
    }
    dst.last := src.last;
    dst.totalLen := dst.totalLen + src.totalLen;
    dst.chains, dst.pieces := cs + src.chains, ps + src.pieces;
  }

  /** PREPEND_CHAIN */
  method PrependChains(dst: Evbuffer, src: Evbuffer)
    requires dst.Valid() && src.Valid() && dst != src && Apart(src.chains, dst.chains)
    requires dst.totalLen != 0 && src.totalLen != 0
    modifies dst`first, dst`lastWithDatap, dst`totalLen, dst`chains, dst`pieces, src.last`next
    ensures dst.Valid() && dst.chains == src.chains + old(dst.chains) && dst.pieces == src.pieces + old(dst.pieces)
  {
    hide Flat, Chain.Holds, Segment, Distinct, Apart;
    ghost var cs, ps := src.chains, src.pieces;
    SegmentLengths(cs, ps, null);
    SegmentLengths(dst.chains, dst.pieces, null);
    SomePiece(src);
    SomePiece(dst);
    FlatConcat(ps, dst.pieces);
    MemoryApart(cs + dst.chains, dst);
    LinkLists(src.last, dst.first, cs, ps, dst.chains, dst.pieces);
    dst.first := src.first;
    dst.totalLen := dst.totalLen + src.totalLen;
    // lastWithDatap leads to a chain, as there is data
    if dst.lastWithDatap == FirstOf(dst) {
      dst.lastWithDatap := NextOf(src.last);
    }
    dst.chains, dst.pieces := cs + dst.chains, ps + dst.pieces;
  }

  lemma SomePiece(buf: Evbuffer)
    requires buf.Valid() && buf.totalLen != 0
    ensures buf.chains != [] && buf.pieces != [] && buf.pieces[|buf.pieces| - 1] != []
  {
    if |buf.pieces| == 1 {
      FlatOne(buf.pieces[0]);
      assert buf.pieces == [buf.pieces[0]];
    }
  }

  /** evbuffer_add_buffer */
  method AddBuffer(outbuf: Evbuffer, inbuf: Evbuffer) returns (result: int)
    requires outbuf.Valid() && inbuf.Valid()
    requires outbuf != inbuf ==> Apart(outbuf.chains, inbuf.chains)
    modifies outbuf`first, outbuf`last, outbuf`lastWithDatap, outbuf`totalLen, outbuf`chains, outbuf`pieces
    modifies inbuf`first, inbuf`last, inbuf`lastWithDatap, inbuf`totalLen, inbuf`chains, inbuf`pieces
    modifies outbuf.chains`next
    ensures outbuf.Valid() && inbuf.Valid()
    ensures outbuf != inbuf ==> Apart(outbuf.chains, inbuf.chains)
    ensures old(inbuf.totalLen == |inbuf.Content()|)
    ensures result == if old(inbuf.totalLen) != 0 && outbuf != inbuf && (outbuf.freezeEnd || inbuf.freezeStart)
      then -1 else 0
    ensures result != 0 || outbuf == inbuf ==>
      outbuf.Content() == old(outbuf.Content()) && inbuf.Content() == old(inbuf.Content())
    ensures result == 0 && outbuf != inbuf ==>
      outbuf.Content() == old(outbuf.Content() + inbuf.Content()) && inbuf.Content() == []
    ensures result == 0 && outbuf != inbuf && old(outbuf.totalLen != 0 && inbuf.totalLen != 0) ==>
      outbuf.pieces == old(outbuf.pieces + inbuf.pieces)
    ensures old(NoneEmpty(outbuf.pieces) && NoneEmpty(inbuf.pieces)) ==>
      NoneEmpty(outbuf.pieces) && NoneEmpty(inbuf.pieces)
    ensures forall c :: c in outbuf.chains || c in inbuf.chains ==> c in old(outbuf.chains) || c in old(inbuf.chains)
  {
    hide Flat, Chain.Holds, Segment, Distinct, Apart;
    NoBytes(inbuf);
    if inbuf.totalLen == 0 || outbuf == inbuf { return 0; }
    if outbuf.freezeEnd || inbuf.freezeStart { return -1; }
    NoBytes(outbuf);
    FlatConcat(outbuf.pieces, inbuf.pieces);
    if outbuf.totalLen == 0 {
      CopyChains(outbuf, inbuf);
    } else {
      AppendChains(outbuf, inbuf);
    }
    MemoryApart(outbuf.chains, inbuf);
    ZeroChain(inbuf);
    ApartNil(outbuf.chains);
    assert [] + old(inbuf.Content()) == old(inbuf.Content());
    return 0;
  }

  /** evbuffer_prepend_buffer */
  method PrependBuffer(outbuf: Evbuffer, inbuf: Evbuffer) returns (result: int)
    requires outbuf.Valid() && inbuf.Valid()
    requires outbuf != inbuf ==> Apart(outbuf.chains, inbuf.chains)
    modifies outbuf`first, outbuf`last, outbuf`lastWithDatap, outbuf`totalLen, outbuf`chains, outbuf`pieces
    modifies inbuf`first, inbuf`last, inbuf`lastWithDatap, inbuf`totalLen, inbuf`chains, inbuf`pieces
    modifies inbuf.chains`next
    ensures outbuf.Valid() && inbuf.Valid()
    ensures outbuf != inbuf ==> Apart(outbuf.chains, inbuf.chains)
    ensures old(inbuf.totalLen == |inbuf.Content()|)
    ensures result == if old(inbuf.totalLen) != 0 && outbuf != inbuf && (outbuf.freezeStart || inbuf.freezeStart)
      then -1 else 0
    ensures result != 0 || outbuf == inbuf ==>
      outbuf.Content() == old(outbuf.Content()) && inbuf.Content() == old(inbuf.Content())
    ensures result == 0 && outbuf != inbuf ==>
      outbuf.Content() == old(inbuf.Content() + outbuf.Content()) && inbuf.Content() == []
    ensures old(NoneEmpty(outbuf.pieces) && NoneEmpty(inbuf.pieces)) ==>
      NoneEmpty(outbuf.pieces) && NoneEmpty(inbuf.pieces)
    ensures forall c :: c in outbuf.chains || c in inbuf.chains ==> c in old(outbuf.chains) || c in old(inbuf.chains)
  {
    hide Flat, Chain.Holds, Segment, Distinct, Apart;
    NoBytes(inbuf);
    ApartFlips(outbuf.chains, inbuf.chains);
    if inbuf.totalLen == 0 || outbuf == inbuf { return 0; }
    if outbuf.freezeStart || inbuf.freezeStart { return -1; }
    NoBytes(outbuf);
    FlatConcat(inbuf.pieces, outbuf.pieces);
    if outbuf.totalLen == 0 {
      CopyChains(outbuf, inbuf);
    } else {
      PrependChains(outbuf, inbuf);
    }
    MemoryApart(outbuf.chains, inbuf);
    ZeroChain(inbuf);
    ApartNil(outbuf.chains);
    assert old(inbuf.Content()) + [] == old(inbuf.Content());
    return 0;
  }

  lemma ApartNil(cs: seq<Chain>)
    ensures Apart(cs, []) && Flat([]) == []
  {
  }

  lemma NoBytes(buf: Evbuffer)
    requires buf.Valid()
    ensures buf.totalLen == 0 <==> buf.Content() == []
    ensures buf.totalLen != 0 ==> buf.chains != []
  {
  }

  /** advance_last_with_data: on over chains with data, as far as the next empty one. */
  method AdvanceLastWithData(buf: Evbuffer, ghost i: nat) returns (ghost j: nat)
    requires Segment(buf.chains, buf.pieces, null) && buf.first == ChainAt(buf.chains, 0)
    requires i < |buf.chains| == |buf.pieces| && buf.lastWithDatap == LinkAt(buf, buf.chains, i)
    modifies buf`lastWithDatap
    ensures i <= j < |buf.chains| && buf.lastWithDatap == LinkAt(buf, buf.chains, j)
    ensures (forall k :: i < k <= j ==> buf.pieces[k] != []) && (j + 1 < |buf.pieces| ==> buf.pieces[j + 1] == [])
  {
    hide Flat, Chain.Holds, Segment, Distinct, Apart;
    ghost var n := |buf.chains|;
    j := i;
    TargetAt(buf, i);
    while Target(buf.lastWithDatap).next != null && Target(buf.lastWithDatap).next.off != 0
      invariant Segment(buf.chains, buf.pieces, null) && buf.first == ChainAt(buf.chains, 0)
      invariant i <= j < n && buf.lastWithDatap == LinkAt(buf, buf.chains, j)
      invariant Target(buf.lastWithDatap) == buf.chains[j]
      invariant forall k :: i < k <= j ==> buf.pieces[k] != []
      decreases n - j
    {
      WalkFacts(buf.chains, buf.pieces, j);
      WalkFacts(buf.chains, buf.pieces, j + 1);
      buf.lastWithDatap := NextOf(Target(buf.lastWithDatap));
      j := j + 1;
      TargetAt(buf, j);
    }
    WalkFacts(buf.chains, buf.pieces, j);
    if j + 1 < n { WalkFacts(buf.chains, buf.pieces, j + 1); }
  }

  /** How many chains lie wholly within the first datlen bytes. */
  ghost function Whole(ps: seq<seq<Byte>>, datlen: int): (k: nat)
    ensures k <= |ps|
  {
    if ps != [] && |ps[0]| <= datlen then 1 + Whole(ps[1..], datlen - |ps[0]|) else 0
  }

  lemma {:induction false} WholeIs(ps: seq<seq<Byte>>, datlen: int, k: nat)
    requires k < |ps| && |Flat(ps[..k])| <= datlen < |Flat(ps[..k])| + |ps[k]|
    ensures Whole(ps, datlen) == k
  {
    hide Flat;
    FlatEnds(ps);
    if k > 0 {
      assert ps[..k] == [ps[0]] + ps[1..][..k - 1];
      FlatPrepend(ps[0], ps[1..][..k - 1]);
      WholeIs(ps[1..], datlen - |ps[0]|, k - 1);
    }
  }

  /** Where chains moved behind others keep last_with_datap at the last chain: none of them is empty, but the
      first if there were no others. */
  ghost predicate Follows(chains: bool, whole: seq<seq<Byte>>) {
    NoneEmpty(if chains || whole == [] then whole else whole[1..])
  }

  /** evbuffer_remove_buffer does not copy bytes behind chains it moved with last_with_datap left in front. */
  ghost predicate Movable(chains: bool, ps: seq<seq<Byte>>, datlen: int) {
    var whole := ps[..Whole(ps, datlen)];
    |Flat(whole)| == datlen || Flat(whole) == [] || Follows(chains, whole)
  }

  /** It moves chains, and leaves last_with_datap in front of an empty one. */
  ghost predicate LeavesBehind(chains: bool, ps: seq<seq<Byte>>, datlen: int) {
    var whole := ps[..Whole(ps, datlen)];
    Flat(whole) != [] && !Follows(chains, whole)
  }

  lemma MovedWithout(chains: bool, ps: seq<seq<Byte>>, datlen: int)
    requires Movable(chains, ps, datlen) && LeavesBehind(chains, ps, datlen)
    ensures |Flat(ps[..Whole(ps, datlen)])| == datlen
  {
  }

  /** All data is in the last of several chains. */
  ghost predicate EmptyUpToLast(ps: seq<seq<Byte>>) {
    |ps| > 1 && Flat(ps[..|ps| - 1]) == []
  }

  lemma NoneEmptyMoves(chains: bool, ps: seq<seq<Byte>>, datlen: int)
    requires NoneEmpty(ps)
    ensures Movable(chains, ps, datlen) && !LeavesBehind(chains, ps, datlen) && !EmptyUpToLast(ps)
  {
    if |ps| > 1 {
      EmptyFront(ps, 0, |ps| - 1);
    }
  }

  lemma EmptyFront(ps: seq<seq<Byte>>, k: nat, m: nat)
    requires k < m <= |ps|
    ensures Flat(ps[..m]) == [] ==> ps[k] == [] && Flat(ps[..k]) == []
  {
    hide Flat;
    FlatAt(ps[..m], k);
    assert ps[..m][..k] == ps[..k];
  }

  /** The chains evbuffer_remove_buffer can take whole: those before chain k, that hold count bytes. */
  method WholeChains(src: Evbuffer, datlen: nat)
      returns (chain: Chain, previous: Chain?, count: nat, left: nat, ghost k: nat)
    requires src.Valid() && datlen < src.totalLen
    modifies src`lastWithDatap
    ensures |src.pieces| == |src.chains| && k < |src.chains| && chain == src.chains[k] && left < chain.off
      && chain.off == |src.pieces[k]|
    ensures k == Whole(src.pieces, datlen) && count == |Flat(src.pieces[..k])| && count + left == datlen
    ensures k > 0 ==> previous == src.chains[k - 1]
    ensures var n := |src.chains|;
      src.lastWithDatap == if k == n - 1 then FirstOf(src) else LinkAt(src, src.chains, n - 1)
  {
    hide Flat, Chain.Holds, Segment, Distinct, Apart;
    ghost var cs, ps := src.chains, src.pieces;
    ghost var n := |cs|;
    FlatEnds(ps);
    SegmentLengths(cs, ps, null);
    MemoryApart(cs, src);
    chain, previous, count, left, k := src.first, null, 0, datlen, 0;
    WalkFacts(src.chains, src.pieces, 0);
    while chain.off <= left
      invariant Segment(cs, ps, null) && k < n && chain == cs[k]
      invariant count == |Flat(ps[..k])| && count + left == datlen
      invariant k > 0 ==> previous == cs[k - 1]
      invariant src.lastWithDatap == if k == n - 1 then FirstOf(src) else LinkAt(src, cs, n - 1)
      decreases n - k
    {
      WalkFacts(src.chains, src.pieces, k);
      if k + 1 < n { LastLink(src, k); }
      count := count + chain.off;
      left := left - chain.off;
      previous := chain;
      if src.lastWithDatap == NextOf(chain) { src.lastWithDatap := FirstOf(src); }
      chain := chain.next;
      k := k + 1;
    }
    WalkFacts(src.chains, src.pieces, k);
    WholeIs(ps, datlen, k);
  }

  /** Ends a list of chains behind chain k - 1. */
  method CutLink(previous: Chain, ghost cs: seq<Chain>, ghost ps: seq<seq<Byte>>, ghost k: nat)
    requires Segment(cs, ps, null) && 0 < k < |cs| == |ps| && previous == cs[k - 1]
    modifies previous`next
    ensures Segment(cs[..k], ps[..k], null) && Segment(cs[k..], ps[k..], null) && Apart(cs[..k], cs[k..])
  {
    hide Flat, Chain.Holds, Segment, Distinct, Apart;
    SegmentSplit(cs, ps, null, k);
    SegmentAt(cs, ps, null, k - 1);
    MemoryApart(cs, previous);
    assert cs[..k] == cs[..k - 1] + [previous] && ps[..k] == ps[..k - 1] + [ps[k - 1]];
    BuffersOfPart(cs, k - 1);
    previous.next := null;
    SegmentSnoc(cs[..k - 1], ps[..k - 1], previous, ps[k - 1], null);
  }

  lemma BuffersOfPart(cs: seq<Chain>, i: nat)
    requires i <= |cs|
    ensures Buffers(cs[..i]) <= Buffers(cs) && Buffers(cs[i..]) <= Buffers(cs)
  {
  }

  /** Different chains are linked from different places. */
  lemma LinksDiffer(buf: Evbuffer, i: nat, j: nat)
    requires Segment(buf.chains, buf.pieces, null) && i < |buf.chains| && j < |buf.chains|
    ensures LinkAt(buf, buf.chains, i) == LinkAt(buf, buf.chains, j) <==> i == j
  {
  }

  /** How far advance_last_with_data comes over chains that were put behind others. */
  lemma ReachesLast(qs: seq<seq<Byte>>, ps: seq<seq<Byte>>, j: nat)
    requires ps != [] && j < |qs + ps| && (if qs == [] then 0 else |qs| - 1) <= j
    requires forall k :: (if qs == [] then 0 else |qs| - 1) < k <= j ==> (qs + ps)[k] != []
    requires j + 1 < |qs + ps| ==> (qs + ps)[j + 1] == []
    ensures Follows(qs != [], ps) <==> j == |qs + ps| - 1
    ensures Follows(qs != [], ps) && |qs + ps| > 1 ==> (qs + ps)[|qs + ps| - 1] != []
  {
    var all, i := qs + ps, if qs == [] then 0 else |qs| - 1;
    var rest := if qs != [] then ps else ps[1..];
    assert forall k :: 0 <= k < |rest| ==> rest[k] == all[i + 1 + k];
    assert forall k :: i < k < |all| ==> all[k] == rest[k - i - 1];
  }

  /** Puts a list of chains behind the others; their bytes are counted. */
  method TakeChains(dst: Evbuffer, head: Chain, last: Chain, count: nat, ghost cs: seq<Chain>, ghost ps: seq<seq<Byte>>)
    requires dst.Valid() && Segment(cs, ps, null) && Apart(dst.chains, cs)
    requires cs != [] && head == cs[0] && last == cs[|cs| - 1] && count == |Flat(ps)|
    modifies dst`first, dst`last, dst`lastWithDatap, dst`totalLen, dst`chains, dst`pieces, dst.chains`next
    ensures dst.Holding() && (dst.Valid() <==> Follows(old(dst.chains) != [], ps))
    ensures dst.chains == old(dst.chains) + cs && dst.pieces == old(dst.pieces) + ps
  {
    hide Flat, Chain.Holds, Segment, Distinct, Apart, Follows, Evbuffer.Holding;
    ghost var n, qs := |dst.chains|, dst.pieces;
    HoldingIs(dst);
    SegmentLengths(cs, ps, null);
    SegmentLengths(dst.chains, dst.pieces, null);
    FlatConcat(dst.pieces, ps);
    MemoryApart(dst.chains + cs, dst);
    if dst.first == null {
      assert [] + cs == cs && [] + ps == ps;
      dst.first := head;
    } else {
      LinkLists(dst.last, head, dst.chains, dst.pieces, cs, ps);
    }
    dst.chains, dst.pieces := dst.chains + cs, dst.pieces + ps;
    dst.last := last;
    dst.totalLen := dst.totalLen + count;
    IsHolding(dst);
    AdvanceOver(dst, qs, ps);
  }

  /** advance_last_with_data over chains put behind others: it reaches the last one, or an empty one before. */
  method AdvanceOver(dst: Evbuffer, ghost qs: seq<seq<Byte>>, ghost ps: seq<seq<Byte>>)
    requires dst.Holding() && dst.pieces == qs + ps && ps != []
    requires dst.lastWithDatap == LinkAt(dst, dst.chains, if qs == [] then 0 else |qs| - 1)
    modifies dst`lastWithDatap
    ensures dst.Holding() && (dst.Valid() <==> Follows(qs != [], ps))
  {
    hide Flat, Chain.Holds, Segment, Distinct, Apart, Follows;
    SegmentLengths(dst.chains, dst.pieces, null);
    MemoryApart(dst.chains, dst);
    ghost var j := AdvanceLastWithData(dst, if qs == [] then 0 else |qs| - 1);
    LinksDiffer(dst, j, |dst.chains| - 1);
    ReachesLast(qs, ps, j);
  }

  /** Chains of one list are no memory of another's, nor the memory of both the same, when the lists are apart. */
  lemma ApartMemory(a: seq<Chain>, b: seq<Chain>)
    requires Apart(a, b)
    ensures forall c :: c in a ==> c !in b
    ensures forall m :: m in Buffers(a) ==> m !in Buffers(b)
    ensures forall c, m :: c in a && m in Buffers(b) ==> m as object != c
    ensures forall c, m :: c in b && m in Buffers(a) ==> m as object != c
  {
    forall m | m in Buffers(a) ensures m !in Buffers(b) {}
  }

  /** The whole chains move: the first part of evbuffer_remove_buffer. */
  method MoveWhole(src: Evbuffer, dst: Evbuffer, chain: Chain, previous: Chain, count: nat, ghost k: nat)
    requires src != dst && dst.Valid() && Segment(src.chains, src.pieces, null) && Apart(dst.chains, src.chains)
    requires 0 < k < |src.chains| == |src.pieces| && chain == src.chains[k] && previous == src.chains[k - 1]
    requires src.first == src.chains[0] && count == |Flat(src.pieces[..k])|
    modifies src`first, src`chains, src`pieces, previous`next
    modifies dst`first, dst`last, dst`lastWithDatap, dst`totalLen, dst`chains, dst`pieces, dst.chains`next
    ensures dst.Holding() && (dst.Valid() <==> Follows(old(dst.chains) != [], old(src.pieces[..k])))
    ensures Segment(src.chains, src.pieces, null) && src.first == chain
    ensures dst.chains == old(dst.chains + src.chains[..k]) && dst.pieces == old(dst.pieces + src.pieces[..k])
    ensures src.chains == old(src.chains[k..]) && src.pieces == old(src.pieces[k..])
    ensures Apart(dst.chains, src.chains)
  {
    hide Flat, Chain.Holds, Segment, Distinct, Apart, Evbuffer.Holding;
    ghost var cs, ps, ds := src.chains, src.pieces, dst.chains;
    ApartMemory(ds, cs);
    MemoryApart(ds, previous);
    CutLink(previous, cs, ps, k);
    ApartBy(ds, cs, ds, cs[..k]);
    ApartBy(ds, cs, ds, cs[k..]);
    ApartMemory(ds, cs[k..]);
    ApartSum(ds, cs, k);
    MemoryApart(cs[k..], dst);
    MemoryApart(cs[k..], src);
    MemoryApart(cs[..k], src);
    MemoryApart(ds, src);
    var head := src.first;
    src.first := chain;
    src.chains, src.pieces := cs[k..], ps[k..];
    TakeChains(dst, head, previous, count, cs[..k], ps[..k]);
  }

  lemma ApartSum(a: seq<Chain>, b: seq<Chain>, k: nat)
    requires k <= |b| && Apart(a, b) && Apart(b[..k], b[k..])
    ensures Apart(a + b[..k], b[k..])
  {
    forall i, j | 0 <= i < |a + b[..k]| && 0 <= j < |b[k..]|
      ensures (a + b[..k])[i] != b[k..][j] && (a + b[..k])[i].buffer != b[k..][j].buffer
    {
      if i >= |a| { assert (a + b[..k])[i] == b[..k][i - |a|]; }
    }
  }

  /** evbuffer_add beside a list of chains apart from the buffer's: it stays what it is. */
  method AddBeside(dst: Evbuffer, data: seq<Byte>, ghost cs: seq<Chain>, ghost ps: seq<seq<Byte>>)
    requires dst.Valid() || (dst.Holding() && dst.last != null && data == [])
    requires Segment(cs, ps, null) && Apart(dst.chains, cs) && !dst.freezeEnd
    modifies dst`first, dst`last, dst`lastWithDatap, dst`totalLen, dst`chains, dst`pieces, dst.chains,
      Buffers(dst.chains)
    ensures dst.Holding() && (old(dst.Valid()) ==> dst.Valid()) && dst.Content() == old(dst.Content()) + data
    ensures data == [] && old(dst.last) != null ==> (dst.Valid() <==> old(dst.Valid()))
    ensures old(NoneEmpty(dst.pieces)) && (data != [] || old(dst.first) != null) ==> NoneEmpty(dst.pieces)
    ensures old(dst.first) == null ==> dst.pieces == [data]
    ensures data == [] && old(dst.first) != null ==> dst.pieces == old(dst.pieces)
    ensures Segment(cs, ps, null) && Apart(dst.chains, cs) && forall c :: c in cs ==> c.off == old(c.off)
    ensures forall c :: c in dst.chains ==> c in old(dst.chains) || (fresh(c) && fresh(c.buffer))
  {
    hide Flat, Chain.Holds, Segment, Distinct, Apart, Evbuffer.Valid, Evbuffer.Content;
    ghost var ds := dst.chains;
    ApartMemory(ds, cs);
    MemoryApart(cs, dst);
    var added := dst.Add(data);
    assert forall c :: c in cs ==> c.next == old(c.next) && c.off == old(c.off) && c.misalign == old(c.misalign);
    assert forall m :: m in Buffers(cs) ==> unchanged(m);
    assert forall c :: c in dst.chains ==> c in ds || (c !in cs && c.buffer !in Buffers(cs));
    ApartGrown(ds, cs, dst.chains);
  }

  /** Moves the front of chain i past its first bytes, where it is. */
  method TrimChain(src: Evbuffer, chain: Chain, cut: nat, ghost i: nat)
    requires Segment(src.chains, src.pieces, null) && i < |src.chains| == |src.pieces| && chain == src.chains[i]
    requires cut < chain.off && Flat(src.pieces[..i]) == []
    modifies src`pieces, chain`misalign, chain`off
    ensures Segment(src.chains, src.pieces, null) && |src.pieces| == |src.chains|
    ensures cut < |old(src.pieces)[i]| && src.pieces == old(src.pieces)[i := old(src.pieces)[i][cut..]]
    ensures cut <= |old(src.Content())| && src.Content() == old(src.Content())[cut..]
  {
    hide Flat, Chain.Holds, Segment, Distinct, Apart;
    ghost var cs, ps := src.chains, src.pieces;
    WalkFacts(cs, ps, i);
    SegmentSplit(cs, ps, null, i);
    SegmentAt(cs, ps, null, i);
    MemoryApart(cs[..i], chain);
    MemoryApart(cs, src);
    FlatCut(ps, i, cut);
    DropFrom(chain, cut, cs, ps, i);
    ghost var rest := Cut(ps, i, cut);
    FlatConcat(ps[..i], rest);
    SegmentJoin(cs[..i], ps[..i], cs[i..], rest, null);
    assert cs[..i] + cs[i..] == cs && ps[..i] + rest == ps[i := ps[i][cut..]];
    src.pieces := ps[i := ps[i][cut..]];
  }

  /** Cuts what is left to take from the first chain with data, copied before. */
  method TakeRest(src: Evbuffer, dst: Evbuffer, chain: Chain, left: nat, ghost i: nat)
    requires src != dst && (dst.Valid() || (dst.Holding() && left == 0))
    requires Segment(src.chains, src.pieces, null) && Apart(dst.chains, src.chains)
    requires i < |src.chains| == |src.pieces| && src.first == src.chains[0] && Flat(src.pieces[..i]) == []
    requires chain == src.chains[i] && left < chain.off && src.last == src.chains[|src.chains| - 1]
    requires left > 0 || dst.chains != []
    requires src.totalLen == |Flat(src.pieces)| - left && !dst.freezeEnd
    modifies src`pieces, chain`misalign, chain`off
    modifies dst`first, dst`last, dst`lastWithDatap, dst`totalLen, dst`chains, dst`pieces, dst.chains,
      Buffers(dst.chains)
    ensures dst.Holding() && src.Holding() && Apart(dst.chains, src.chains)
    ensures dst.Valid() <==> old(dst.Valid())
    ensures src.chains == old(src.chains) && |src.pieces| == |old(src.pieces)| > 0
    ensures src.pieces[|src.pieces| - 1] == [] <==> old(src.pieces[|src.pieces| - 1]) == []
    ensures old(NoneEmpty(dst.pieces)) ==> NoneEmpty(dst.pieces)
    ensures old(NoneEmpty(src.pieces)) ==> NoneEmpty(src.pieces)
    ensures left < |old(src.Content())| && src.Content() == old(src.Content())[left..]
    ensures dst.Content() == old(dst.Content()) + old(src.Content())[..left]
    ensures left == 0 ==> dst.pieces == old(dst.pieces)
    ensures forall c :: c in dst.chains ==> c in old(dst.chains) || (fresh(c) && fresh(c.buffer))
  {
    hide Flat, Chain.Holds, Segment, Distinct, Apart, Evbuffer.Holding;
    ghost var cs, ps, ds := src.chains, src.pieces, dst.chains;
    WalkFacts(cs, ps, i);
    FlatCut(ps, i, left);
    var data := chain.buffer[chain.misalign..chain.misalign + left];
    assert data == ps[i][..left];
    assert [] + data == data;
    dst.FirstFacts();
    AddBeside(dst, data, cs, ps);
    ApartMemory(dst.chains, cs);
    MemoryApart(dst.chains, src);
    MemoryApart(cs, src);
    TrimChain(src, chain, left, i);
    IsHolding(src);
  }

  lemma HoldingIs(buf: Evbuffer)
    requires buf.Holding()
    ensures Segment(buf.chains, buf.pieces, null) && buf.first == ChainAt(buf.chains, 0)
    ensures buf.last == if buf.chains == [] then null else buf.chains[|buf.chains| - 1]
    ensures buf.totalLen == |Flat(buf.pieces)|
  {
  }

  lemma IsHolding(buf: Evbuffer)
    requires Segment(buf.chains, buf.pieces, null) && buf.chains != [] && buf.first == buf.chains[0]
    requires buf.last == buf.chains[|buf.chains| - 1] && buf.totalLen == |buf.Content()|
    ensures buf.Holding()
  {
  }

  lemma ApartGrown(a: seq<Chain>, b: seq<Chain>, a': seq<Chain>)
    requires Apart(a, b) && forall c :: c in a' ==> c in a || (c !in b && c.buffer !in Buffers(b))
    ensures Apart(a', b)
  {
    ApartMemory(a, b);
    forall i, j | 0 <= i < |a'| && 0 <= j < |b| ensures a'[i] != b[j] && a'[i].buffer != b[j].buffer {
      assert a'[i] in a' && b[j] in b && b[j].buffer in Buffers(b);
      if a'[i] in a {
        var k :| 0 <= k < |a| && a[k] == a'[i];
      }
    }
  }

  lemma Taken(ps: seq<seq<Byte>>, k: nat, left: nat)
    requires k < |ps| && left <= |ps[k]|
    ensures |Flat(ps)| == |Flat(ps[..k])| + |Flat(ps[k..])| && left <= |Flat(ps[k..])|
    ensures var count := |Flat(ps[..k])|;
      && Flat(ps[k..])[left..] == Flat(ps)[count + left..]
      && Flat(ps)[..count + left] == Flat(ps[..k]) + Flat(ps[k..])[..left]
  {
    hide Flat;
    FlatAt(ps, k);
    FlatConcat(ps[..k], ps[k..]);
    assert ps == ps[..k] + ps[k..];
    DropInMiddle(Flat(ps[..k]), Flat(ps[k..]), [], left);
    assert Flat(ps[k..]) + [] == Flat(ps[k..]);
  }

  /** The chains that can be taken whole have moved, unless they hold nothing; what is left to take is in
      chain i. */
  method TakeWhole(src: Evbuffer, dst: Evbuffer, datlen: nat)
    returns (chain: Chain, left: nat, ghost i: nat, ghost k: nat)
    requires src.Valid() && dst.Valid() && src != dst && Apart(dst.chains, src.chains)
    requires 0 < datlen < src.totalLen
    modifies src`first, src`lastWithDatap, src`chains, src`pieces, src.chains`next
    modifies dst`first, dst`last, dst`lastWithDatap, dst`totalLen, dst`chains, dst`pieces, dst.chains`next
    ensures dst.Holding() && (dst.Valid() <==> !LeavesBehind(old(dst.chains) != [], old(src.pieces), datlen))
    ensures Segment(src.chains, src.pieces, null) && Apart(dst.chains, src.chains)
    ensures i < |src.chains| == |src.pieces| && src.first == src.chains[0] && Flat(src.pieces[..i]) == []
    ensures chain == src.chains[i] && left < chain.off && src.last == src.chains[|src.chains| - 1]
    ensures |src.pieces| > 1 ==> src.pieces[|src.pieces| - 1] != []
    ensures src.lastWithDatap == LinkAt(src, src.chains, |src.chains| - 1) <==> !EmptyUpToLast(old(src.pieces))
    ensures (left > 0 || dst.chains != []) && src.totalLen - datlen == |Flat(src.pieces)| - left
    ensures old(NoneEmpty(dst.pieces) && NoneEmpty(src.pieces)) ==> NoneEmpty(dst.pieces) && NoneEmpty(src.pieces)
    ensures datlen < |old(src.Content())| && left <= |src.Content()|
    ensures src.Content()[left..] == old(src.Content())[datlen..]
    ensures dst.Content() + src.Content()[..left] == old(dst.Content()) + old(src.Content())[..datlen]
    ensures var whole := old(src.pieces)[..Whole(old(src.pieces), datlen)];
      left == datlen - |Flat(whole)| && (left == 0 ==> dst.pieces == old(dst.pieces) + whole)
    ensures k <= |old(src.chains)| && src.chains == old(src.chains)[k..]
    ensures dst.chains == old(dst.chains) + old(src.chains)[..k]
  {
    hide Flat, Chain.Holds, Segment, Distinct, Apart, Whole, Follows;
    ghost var cs, ps, qs, n := src.chains, src.pieces, dst.pieces, |src.chains|;
    var previous, count;
    MemoryApart(cs, src);
    MemoryApart(dst.chains, src);
    chain, previous, count, left, k := WholeChains(src, datlen);
    Taken(ps, k, left);
    FlatEnds(ps);
    WhereLast(ps, k);
    assert ps[0..] == ps && cs[0..] == cs && dst.chains + cs[..0] == dst.chains;
    i := k;
    if count > 0 {
      FlatConcat(qs, ps[..k]);
      Associative(Flat(qs), Flat(ps[..k]), Flat(ps[k..])[..left]);
      MoveWhole(src, dst, chain, previous, count, k);
      i := 0;
      FlatEnds(src.pieces);
    } else {
      k := 0;
      assert [] + Flat(ps[k..]) == Flat(ps[k..]) && Flat(ps)[..left] == Flat(ps[k..])[..left];
    }
  }

  /** Whether all data is in the last chain, told from the chain the taking stops at. */
  lemma WhereLast(ps: seq<seq<Byte>>, k: nat)
    requires k < |ps| && ps[k] != []
    ensures EmptyUpToLast(ps) <==> k == |ps| - 1 && k > 0 && Flat(ps[..k]) == []
  {
    hide Flat;
    if k < |ps| - 1 { EmptyFront(ps, k, |ps| - 1); }
  }

  /** evbuffer_remove_buffer of part of the source: whole chains move, the rest is copied. */
  method RemovePart(src: Evbuffer, dst: Evbuffer, datlen: nat)
    requires src.Valid() && dst.Valid() && src != dst && Apart(dst.chains, src.chains)
    requires 0 < datlen < src.totalLen && Movable(dst.chains != [], src.pieces, datlen) && !dst.freezeEnd
    modifies src`first, src`last, src`lastWithDatap, src`totalLen, src`chains, src`pieces, src.chains
    modifies dst`first, dst`last, dst`lastWithDatap, dst`totalLen, dst`chains, dst`pieces, dst.chains,
      Buffers(dst.chains), Buffers(src.chains)
    ensures dst.Holding() && src.Holding() && Apart(dst.chains, src.chains)
    ensures dst.Valid() <==> !LeavesBehind(old(dst.chains) != [], old(src.pieces), datlen)
    ensures src.Valid() <==> !EmptyUpToLast(old(src.pieces))
    ensures old(NoneEmpty(dst.pieces) && NoneEmpty(src.pieces)) ==> NoneEmpty(dst.pieces) && NoneEmpty(src.pieces)
    ensures datlen < |old(src.Content())| && src.Content() == old(src.Content())[datlen..]
    ensures dst.Content() == old(dst.Content()) + old(src.Content())[..datlen]
    ensures var whole := old(src.pieces)[..Whole(old(src.pieces), datlen)];
      |Flat(whole)| == datlen ==> dst.pieces == old(dst.pieces) + whole
    ensures forall c :: c in dst.chains || c in src.chains ==>
      c in old(dst.chains) || c in old(src.chains) || (fresh(c) && fresh(c.buffer))
  {
    hide Flat, Chain.Holds, Segment, Distinct, Apart, NoneEmpty, Evbuffer.Holding, EmptyUpToLast, Whole, Movable,
      LeavesBehind, Evbuffer.Valid;
    var chain, left;
    ghost var i, k;
    ghost var ds, cs := dst.chains, src.chains;
    if LeavesBehind(ds != [], src.pieces, datlen) { MovedWithout(ds != [], src.pieces, datlen); }
    chain, left, i, k := TakeWhole(src, dst, datlen);
    TakeOff(src, dst, chain, datlen, left, i, ds, cs, k);
    ValidIs(src);
  }

  lemma ValidIs(buf: Evbuffer)
    requires buf.Holding() && (|buf.pieces| > 1 ==> buf.pieces[|buf.pieces| - 1] != [])
    ensures buf.Valid() <==> buf.lastWithDatap == LinkAt(buf, buf.chains, |buf.chains| - 1)
  {
  }

  /** What went is accounted for, and the rest of it copied and cut. */
  method TakeOff(src: Evbuffer, dst: Evbuffer, chain: Chain, datlen: nat, left: nat, ghost i: nat,
                 ghost ds: seq<Chain>, ghost cs: seq<Chain>, ghost k: nat)
    requires src != dst && (dst.Valid() || (dst.Holding() && left == 0))
    requires Segment(src.chains, src.pieces, null) && Apart(dst.chains, src.chains)
    requires i < |src.chains| == |src.pieces| && src.first == src.chains[0] && Flat(src.pieces[..i]) == []
    requires chain == src.chains[i] && left < chain.off && src.last == src.chains[|src.chains| - 1]
    requires (left > 0 || dst.chains != []) && !dst.freezeEnd
    requires datlen <= src.totalLen && src.totalLen - datlen == |Flat(src.pieces)| - left
    requires k <= |cs| && src.chains == cs[k..] && dst.chains == ds + cs[..k]
    modifies src`pieces, src`totalLen, cs
    modifies dst`first, dst`last, dst`lastWithDatap, dst`totalLen, dst`chains, dst`pieces, ds, Buffers(ds), Buffers(cs)
    ensures dst.Holding() && src.Holding() && Apart(dst.chains, src.chains)
    ensures dst.Valid() <==> old(dst.Valid())
    ensures src.chains == old(src.chains) && |src.pieces| == |old(src.pieces)| > 0
    ensures src.pieces[|src.pieces| - 1] == [] <==> old(src.pieces[|src.pieces| - 1]) == []
    ensures old(NoneEmpty(dst.pieces)) ==> NoneEmpty(dst.pieces)
    ensures old(NoneEmpty(src.pieces)) ==> NoneEmpty(src.pieces)
    ensures left < |old(src.Content())| && src.Content() == old(src.Content())[left..]
    ensures dst.Content() == old(dst.Content()) + old(src.Content())[..left]
    ensures left == 0 ==> dst.pieces == old(dst.pieces)
    ensures forall c :: c in dst.chains ==> c in old(dst.chains) || (fresh(c) && fresh(c.buffer))
  {
    hide Flat, Chain.Holds, Segment, Distinct, Apart, NoneEmpty, Evbuffer.Holding, Evbuffer.Content;
    MemoryApart(src.chains, src);
    MemoryApart(dst.chains, src);
    src.totalLen := src.totalLen - datlen;
    TakeRest(src, dst, chain, left, i);
  }

  /** evbuffer_remove_buffer. It takes care of last_with_datap on neither side: the source's is left at the
      first chain where part is taken and its data is all in the last of several chains; the receiver's is left
      in front of an empty chain moved there. */
  method RemoveBuffer(src: Evbuffer, dst: Evbuffer, datlen: nat) returns (result: int)
    requires src.Valid() && dst.Valid() && (src != dst ==> Apart(dst.chains, src.chains))
    requires datlen < src.totalLen ==> Movable(dst.chains != [], src.pieces, datlen)
    modifies src`first, src`last, src`lastWithDatap, src`totalLen, src`chains, src`pieces, src.chains
    modifies dst`first, dst`last, dst`lastWithDatap, dst`totalLen, dst`chains, dst`pieces, dst.chains,
      Buffers(dst.chains), Buffers(src.chains)
    ensures dst.Holding() && src.Holding() && (src != dst ==> Apart(dst.chains, src.chains))
    ensures var part := 0 < result < old(src.totalLen);
      && (src.Valid() <==> !(part && EmptyUpToLast(old(src.pieces))))
      && (dst.Valid() <==> !(part && LeavesBehind(old(dst.chains) != [], old(src.pieces), datlen)))
    ensures old(NoneEmpty(dst.pieces) && NoneEmpty(src.pieces)) ==> NoneEmpty(dst.pieces) && NoneEmpty(src.pieces)
    ensures old(src.totalLen == |src.Content()|)
    ensures result == if datlen == 0 || src == dst then 0 else if dst.freezeEnd || src.freezeStart then -1
      else Min(datlen, old(src.totalLen))
    ensures result <= 0 ==> src.Content() == old(src.Content()) && dst.Content() == old(dst.Content())
    ensures result > 0 ==> src.Content() == old(src.Content())[result..]
    ensures result > 0 ==> dst.Content() == old(dst.Content()) + old(src.Content())[..result]
    ensures var whole := old(src.pieces)[..Whole(old(src.pieces), datlen)];
      0 < result < old(src.totalLen) && |Flat(whole)| == datlen ==> dst.pieces == old(dst.pieces) + whole
    ensures forall c :: c in dst.chains || c in src.chains ==>
      c in old(dst.chains) || c in old(src.chains) || (fresh(c) && fresh(c.buffer))
  {
    hide Flat, Chain.Holds, Segment, Distinct, Apart, EmptyUpToLast, LeavesBehind, Movable, Whole;
    NoBytes(src);
    if datlen == 0 || dst == src { return 0; }
    if dst.freezeEnd || src.freezeStart { return -1; }
    if datlen >= src.totalLen {
      result := src.totalLen;
      ghost var content := src.Content();
      assert content[..result] == content && content[result..] == [];
      var added := AddBuffer(dst, src);
      return;
    }
    RemovePart(src, dst, datlen);
    return datlen;
  }

  /** A new buffer with one chain. */
  method OneChain(a: seq<Byte>) returns (x: Evbuffer)
    requires a != []
    ensures fresh(x) && x.Valid() && x.pieces == [a] && x.totalLen != 0 && !x.freezeStart && !x.freezeEnd
    ensures fresh(x.chains) && forall c :: c in x.chains ==> fresh(c.buffer)
  {
    hide Flat, Chain.Holds, Segment, Distinct, Apart, Evbuffer.Holding;
    x := new Evbuffer();
    var added := x.Add(a);
    FlatOne(a);
    NoBytes(x);
    AllFresh(x.chains);
  }

  twostate lemma AllFresh(new cs: seq<Chain>)
    requires forall c :: c in cs ==> fresh(c)
    ensures fresh(cs)
  {
    forall i | 0 <= i < |cs| ensures fresh(cs[i]) { assert cs[i] in cs; }
  }

  /** Another chain behind those of a buffer with data. */
  method AddOne(x: Evbuffer, b: seq<Byte>)
    requires x.Valid() && x.totalLen != 0 && !x.freezeEnd && b != []
    modifies x`first, x`last, x`lastWithDatap, x`totalLen, x`chains, x`pieces, x.chains`next
    ensures x.Valid() && x.pieces == old(x.pieces) + [b]
    ensures forall c :: c in x.chains ==> c in old(x.chains) || (fresh(c) && fresh(c.buffer))
  {
    hide Flat, Chain.Holds, Segment, Distinct, Apart, Evbuffer.Holding;
    MemoryApart(x.chains, x);
    var y := OneChain(b);
    ValidFramed(x);
    ApartFresh(x.chains, y.chains);
    var added := AddBuffer(x, y);
  }

  /** A new buffer with two chains. */
  method TwoChains(a: seq<Byte>, b: seq<Byte>) returns (x: Evbuffer)
    requires a != [] && b != []
    ensures fresh(x) && x.Valid() && x.pieces == [a, b] && !x.freezeStart && !x.freezeEnd
    ensures fresh(x.chains) && forall c :: c in x.chains ==> fresh(c.buffer)
  {
    hide Flat, Chain.Holds, Segment, Distinct, Apart, Evbuffer.Holding;
    x := OneChain(a);
    AddOne(x, b);
    assert [a] + [b] == [a, b];
    AllFresh(x.chains);
  }

  /** New chains are apart from those that were there. */
  twostate lemma ApartFresh(a: seq<Chain>, new b: seq<Chain>)
    requires forall c :: c in b ==> fresh(c) && fresh(c.buffer)
    ensures Apart(a, b)
  {
    forall i, j | 0 <= i < |a| && 0 <= j < |b| ensures a[i] != b[j] && a[i].buffer != b[j].buffer {
      assert b[j] in b;
    }
  }

  lemma ApartEmpty(a: seq<Chain>, b: seq<Chain>)
    requires a == []
    ensures Apart(a, b)
  {
  }

  /** A buffer that was added nothing. */
  method NothingAdded() returns (s: Evbuffer)
    ensures fresh(s) && s.Valid() && s.pieces == [[]] && s.chains != [] && !s.freezeStart && !s.freezeEnd
    ensures fresh(s.chains) && forall c :: c in s.chains ==> fresh(c.buffer)
  {
    hide Flat, Chain.Holds, Segment, Distinct, Apart;
    s := new Evbuffer();
    var added := s.Add([]);
    SegmentLengths(s.chains, s.pieces, null);
    AllFresh(s.chains);
  }

  /** Moving a chain to a buffer that was added nothing leaves an empty chain in front of the data. */
  method EmptyInFront(a: seq<Byte>) returns (s: Evbuffer)
    requires a != []
    ensures fresh(s) && s.Valid() && s.pieces == [[], a] && !s.freezeStart && !s.freezeEnd
    ensures fresh(s.chains) && forall c :: c in s.chains ==> fresh(c.buffer)
  {
    hide Flat, Chain.Holds, Segment, Distinct, Apart, Evbuffer.Holding, Whole, Movable, EmptyUpToLast, LeavesBehind,
      NoneEmpty;
    s := NothingAdded();
    label Empty:
    MemoryApart(s.chains, s);
    var x := TwoChains(a, [3]);
    ValidFramed@Empty(s);
    ApartFresh@Empty(s.chains, x.chains);
    FirstOfTwo(a, [3]);
    NoBytes(x);
    ContentLength(x);
    var moved := RemoveBuffer(x, s, |a|);
    assert [[]] + [a] == [[], a];
    AllFresh(s.chains);
  }

  lemma FirstOfTwo(a: seq<Byte>, b: seq<Byte>)
    requires a != [] && b != []
    ensures Whole([a, b], |a|) == 1 && [a, b][..1] == [a] && Flat([a]) == a && |Flat([a, b])| == |a| + |b|
    ensures Movable(true, [a, b], |a|) && !LeavesBehind(true, [a, b], |a|)
  {
    hide Flat, Whole;
    FlatOne(a);
    FlatOne(b);
    assert [a, b] == [a] + [b] && [a, b][..0] == [];
    FlatConcat([a], [b]);
    WholeIs([a, b], |a|, 1);
  }

  /** Then it loses one of its two bytes: the pointer to the last chain with data does not lead to it. */
  method Misplaced() returns (s: Evbuffer)
    ensures fresh(s) && s.Holding() && s.Content() == [2] && !s.Valid()
  {
    hide Flat, Chain.Holds, Segment, Distinct, Apart, Evbuffer.Holding, Whole, Movable, EmptyUpToLast, LeavesBehind,
      NoneEmpty;
    s := EmptyInFront([1, 2]);
    label Made:
    MemoryApart(s.chains, s);
    var t := new Evbuffer();
    ValidFramed@Made(s);
    ApartEmpty(t.chains, s.chains);
    Examples();
    NoBytes(s);
    var moved := RemoveBuffer(s, t, 1);
  }

  /** An empty chain, and two with data. */
  method EmptyBeforeTwo() returns (s: Evbuffer)
    ensures fresh(s) && s.Valid() && s.pieces == [[], [1, 2], [3]] && !s.freezeStart && !s.freezeEnd
    ensures fresh(s.chains) && forall c :: c in s.chains ==> fresh(c.buffer)
  {
    hide Flat, Chain.Holds, Segment, Distinct, Apart, Evbuffer.Holding;
    s := EmptyInFront([1, 2]);
    NoBytes(s);
    Examples();
    AddOne(s, [3]);
    assert [[], [1, 2]] + [[3]] == [[], [1, 2], [3]];
    AllFresh(s.chains);
  }

  /** A chain moved behind an empty one, beside a chain that was there: the pointer of the receiving buffer to
      the last chain with data does not lead to it. */
  method Overtaken() returns (d: Evbuffer)
    ensures fresh(d) && d.Holding() && d.pieces == [[9], [], [1, 2]] && !d.Valid()
  {
    hide Flat, Chain.Holds, Segment, Distinct, Apart, Evbuffer.Holding, Whole, Movable, EmptyUpToLast, LeavesBehind,
      NoneEmpty;
    var s := EmptyBeforeTwo();
    Examples();
    label Made:
    MemoryApart(s.chains, s);
    d := OneChain([9]);
    ValidFramed@Made(s);
    ApartFresh@Made(s.chains, d.chains);
    ApartFlips(s.chains, d.chains);
    ContentLength(s);
    NoBytes(d);
    var moved := RemoveBuffer(s, d, 2);
    assert [[9]] + [[], [1, 2]] == [[9], [], [1, 2]];
  }

  lemma Examples()
    ensures var ps: seq<seq<Byte>> := [[], [1, 2]];
      Movable(false, ps, 1) && EmptyUpToLast(ps) && Flat(ps) == [1, 2]
    ensures var ps: seq<seq<Byte>> := [[], [1, 2], [3]];
      && Whole(ps, 2) == 2 && ps[..2] == [[], [1, 2]] && Flat([[], [1, 2]]) == [1, 2] && Flat(ps) == [1, 2, 3]
      && Movable(true, ps, 2) && LeavesBehind(true, ps, 2) && !EmptyUpToLast(ps)
  {
  }
}
