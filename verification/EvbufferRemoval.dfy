/** Taking bytes from the front of a chained buffer (libevent2/buffer.c): drain, copy out, remove. */
module EvbufferRemoval {
  import opened Octets
  import opened ByteLists
  import opened EvbufferChains

  function Min(a: nat, b: nat): nat {
    if a <= b then a else b
  }

  /** Chains only went from the front. */
  ghost predicate Suffix(a: seq<Chain>, b: seq<Chain>) {
    |a| <= |b| && a == b[|b| - |a|..]
  }

  /** The pieces that stay when `cut` bytes of piece i go, with all the pieces before it. */
  function Cut(ps: seq<seq<Byte>>, i: nat, cut: nat): seq<seq<Byte>>
    requires i < |ps| && cut <= |ps[i]|
  {
    [ps[i][cut..]] + ps[i + 1..]
  }

  lemma FlatCut(ps: seq<seq<Byte>>, i: nat, cut: nat)
    requires i < |ps| && cut <= |ps[i]|
    ensures |Flat(ps[..i])| + cut <= |Flat(ps)|
    ensures Flat(Cut(ps, i, cut)) == Flat(ps)[|Flat(ps[..i])| + cut..]
    ensures Flat(ps)[..|Flat(ps[..i])| + cut] == Flat(ps[..i]) + ps[i][..cut]
  {
    hide Flat;
    FlatAt(ps, i);
    FlatPrepend(ps[i][cut..], ps[i + 1..]);
    DropInMiddle(Flat(ps[..i]), ps[i], Flat(ps[i + 1..]), cut);
  }

  lemma DropInMiddle(a: seq<Byte>, p: seq<Byte>, b: seq<Byte>, cut: nat)
    requires cut <= |p|
    ensures (a + (p + b))[|a| + cut..] == p[cut..] + b
    ensures (a + (p + b))[..|a| + cut] == a + p[..cut]
  {
  }

  /** Moves the front of chain i past its first bytes. */
  method DropFrom(chain: Chain, cut: nat, ghost cs: seq<Chain>, ghost ps: seq<seq<Byte>>, ghost i: nat)
    requires Segment(cs, ps, null) && i < |cs| && chain == cs[i] && cut < chain.off
    modifies chain`misalign, chain`off
    ensures |ps| == |cs| && cut < |ps[i]| && Segment(cs[i..], Cut(ps, i, cut), null)
    ensures chain.off == old(chain.off) - cut
  {
    hide Flat, Chain.Holds, Segment, Distinct, Apart;
    SegmentAt(cs, ps, null, i);
    ghost var rest, p := cs[i + 1..], ps[i];
    HoldsLength(chain, p);
    chain.misalign := chain.misalign + cut;
    chain.off := chain.off - cut;
    assert chain.buffer[chain.misalign..chain.misalign + chain.off] == p[cut..];
    HoldsSlice(chain, p[cut..]);
    assert cs[i..] == [chain] + rest;
    SegmentCons(chain, p[cut..], rest, ps[i + 1..], null);
  }

  /** Drops the first i chains and the first bytes of the next: what drain leaves. */
  method CutFront(buf: Evbuffer, chain: Chain, ghost i: nat, cut: nat)
    requires Segment(buf.chains, buf.pieces, null) && i < |buf.chains| && chain == buf.chains[i]
    requires cut < chain.off
    requires buf.last == buf.chains[|buf.chains| - 1]
    requires var n := |buf.chains|;
      buf.lastWithDatap == if i == n - 1 then FirstOf(buf) else LinkAt(buf, buf.chains, n - 1)
    requires |buf.pieces| > 1 ==> buf.pieces[|buf.pieces| - 1] != []
    requires |buf.pieces| == |buf.chains|
    requires buf.totalLen + |Flat(buf.pieces[..i])| + cut == |Flat(buf.pieces)|
    modifies buf`first, buf`chains, buf`pieces, chain`misalign, chain`off
    ensures buf.Valid()
    ensures buf.chains == old(buf.chains)[i..]
    ensures cut <= |old(buf.pieces[i])| && buf.pieces == Cut(old(buf.pieces), i, cut)
  {
    hide Flat, Chain.Holds, Segment, Distinct, Apart;
    ghost var cs, ps := buf.chains, buf.pieces;
    WalkFacts(cs, ps, i);
    FlatCut(ps, i, cut);
    MemoryApart(cs[i..], buf);
    DropFrom(chain, cut, cs, ps, i);
    buf.first := chain;
    buf.chains, buf.pieces := cs[i..], Cut(ps, i, cut);
  }

  lemma HoldsSlice(c: Chain, p: seq<Byte>)
    requires c.off == |p| && c.misalign + c.off <= c.buffer.Length && 0 < c.buffer.Length
    requires c.buffer[c.misalign..c.misalign + c.off] == p
    ensures c.Holds(p)
  {
  }

  /** A chain the walk over a buffer has reached, and the bytes from there on. */
  lemma WalkFacts(cs: seq<Chain>, ps: seq<seq<Byte>>, i: nat)
    requires Segment(cs, ps, null) && i < |cs|
    ensures |ps| == |cs| && cs[i].next == ChainAt(cs, i + 1)
    ensures var c := cs[i];
      && c.off == |ps[i]| && c.misalign + c.off <= c.buffer.Length
      && c.buffer[c.misalign..c.misalign + c.off] == ps[i] && c.buffer in Buffers(cs)
    ensures Flat(ps[..i + 1]) == Flat(ps[..i]) + ps[i]
    ensures Flat(ps[i..]) == ps[i] + Flat(ps[i + 1..])
    ensures Flat(ps) == Flat(ps[..i]) + Flat(ps[i..])
  {
    hide Flat, Chain.Holds, Segment, Distinct, Apart;
    SegmentAt(cs, ps, null, i);
    HoldsLength(cs[i], ps[i]);
    FlatAt(ps, i);
  }

  /** Only the last chain's link is the one lastWithDatap is, and only the last chain is its target. */
  lemma LastLink(buf: Evbuffer, i: nat)
    requires Segment(buf.chains, buf.pieces, null) && buf.first == ChainAt(buf.chains, 0) && i < |buf.chains| - 1
    ensures LinkAt(buf, buf.chains, |buf.chains| - 1) == NextOf(buf.chains[i]) <==> i == |buf.chains| - 2
    ensures Target(LinkAt(buf, buf.chains, |buf.chains| - 1)) != buf.chains[i]
  {
    hide Flat;
    TargetAt(buf, |buf.chains| - 1);
  }

  /** evbuffer_drain of part of the buffer: whole chains go while they can. */
  method DrainPart(buf: Evbuffer, len: nat)
    requires buf.Valid() && len < buf.totalLen
    modifies buf`first, buf`lastWithDatap, buf`totalLen, buf`chains, buf`pieces, buf.chains
    ensures buf.Valid()
    ensures len < |old(buf.Content())| && buf.Content() == old(buf.Content())[len..]
    ensures old(NoneEmpty(buf.pieces)) ==> NoneEmpty(buf.pieces)
    ensures Suffix(buf.chains, old(buf.chains))
  {
    hide Flat, Chain.Holds, Segment, Distinct, Apart;
    ghost var total, cs, ps := buf.totalLen, buf.chains, buf.pieces;
    var remaining: nat, chain := len, buf.first;
    ghost var i: nat, n := 0, |cs|;
    FlatEnds(ps);
    SegmentLengths(cs, ps, null);
    WalkFacts(buf.chains, buf.pieces, 0);
    buf.totalLen := buf.totalLen - len;
    while remaining >= chain.off
      invariant buf.chains == cs && buf.pieces == ps && Segment(cs, ps, null)
      invariant buf.first == cs[0] && buf.last == cs[n - 1] && buf.totalLen == total - len
      invariant i < n && chain == cs[i] && |Flat(ps[..i])| + remaining == len
      invariant buf.lastWithDatap == if i == n - 1 then FirstOf(buf) else LinkAt(buf, cs, n - 1)
      decreases n - i
    {
      WalkFacts(buf.chains, buf.pieces, i);
      LastLink(buf, i);
      var next := chain.next;
      remaining := remaining - chain.off;
      if Target(buf.lastWithDatap) == chain || buf.lastWithDatap == NextOf(chain) {
        buf.lastWithDatap := FirstOf(buf);
      }
      chain := next;
      i := i + 1;
    }
    WalkFacts(buf.chains, buf.pieces, i);
    FlatCut(ps, i, remaining);
    CutFront(buf, chain, i, remaining);
  }

  /** evbuffer_drain */
  method Drain(buf: Evbuffer, len: nat) returns (result: int)
    requires buf.Valid()
    modifies buf`first, buf`last, buf`lastWithDatap, buf`totalLen, buf`chains, buf`pieces, buf.chains
    ensures buf.Valid()
    ensures result == if old(buf.totalLen) != 0 && buf.freezeStart then -1 else 0
    ensures old(buf.totalLen == |buf.Content()|)
    ensures buf.Content() == if result != 0 then old(buf.Content()) else old(buf.Content()[Min(len, buf.totalLen)..])
    ensures old(NoneEmpty(buf.pieces)) ==> NoneEmpty(buf.pieces)
    ensures Suffix(buf.chains, old(buf.chains))
  {
    hide Flat, Segment;
    var oldLen := buf.totalLen;
    if oldLen == 0 { return 0; }
    if buf.freezeStart { return -1; }
    if len >= oldLen {
      buf.first, buf.last := null, null;
      buf.lastWithDatap := FirstOf(buf);
      buf.totalLen := 0;
      buf.chains, buf.pieces := [], [];
      NoChains();
    } else {
      hide Evbuffer.Valid, Evbuffer.Content;
      DrainPart(buf, len);
    }
    return 0;
  }

  lemma FlatEnds(ps: seq<seq<Byte>>)
    ensures Flat(ps[..0]) == [] && Flat(ps[|ps|..]) == [] && (ps == [] ==> Flat(ps) == [])
  {
  }

  lemma NoChains()
    ensures Segment([], [], null) && Flat([]) == []
  {
  }

  lemma ContentLength(buf: Evbuffer)
    requires buf.Valid()
    ensures buf.totalLen == |buf.Content()|
  {
  }

  lemma SplitBytes(a: seq<Byte>, b: seq<Byte>, all: seq<Byte>)
    ensures a + b == all ==> |a| <= |all| && all[..|a|] == a && all[|a|..] == b
  {
  }

  /** memcpy into a caller's memory. */
  method CopyTo(dataOut: array<Byte>, at: nat, data: seq<Byte>)
    requires at + |data| <= dataOut.Length
    modifies dataOut
    ensures dataOut[..at + |data|] == old(dataOut[..at]) + data
    ensures forall k :: at + |data| <= k < dataOut.Length ==> dataOut[k] == old(dataOut[k])
  {
    forall k | 0 <= k < |data| {
      dataOut[at + k] := data[k];
    }
  }

  /** The first n bytes are copied. */
  ghost predicate Copied(dataOut: array<Byte>, content: seq<Byte>, n: nat)
    reads dataOut
  {
    n <= dataOut.Length && n <= |content| && dataOut[..n] == content[..n]
  }

  /** Copies the first bytes of chain i behind those of the chains before it. */
  method CopyChain(buf: Evbuffer, dataOut: array<Byte>, data: nat, ghost i: nat, chain: Chain, count: nat)
      returns (data': nat)
    requires Segment(buf.chains, buf.pieces, null) && i < |buf.chains| == |buf.pieces| && chain == buf.chains[i]
    requires dataOut !in Buffers(buf.chains) && count <= chain.off && data + count <= dataOut.Length
    requires data == |Flat(buf.pieces[..i])| && Copied(dataOut, buf.Content(), data)
    modifies dataOut
    ensures data' == data + count && Copied(dataOut, buf.Content(), data')
    ensures forall k :: data' <= k < dataOut.Length ==> dataOut[k] == old(dataOut[k])
  {
    hide Flat, Chain.Holds, Segment, Distinct, Apart;
    WalkFacts(buf.chains, buf.pieces, i);
    FlatCut(buf.pieces, i, 0);
    FlatCut(buf.pieces, i, count);
    var piece := chain.buffer[chain.misalign..chain.misalign + count];
    assert piece == buf.pieces[i][..count];
    CopyTo(dataOut, data, piece);
    data' := data + count;
  }

  lemma NothingCopied(dataOut: array<Byte>, content: seq<Byte>)
    ensures Copied(dataOut, content, 0)
  {
  }

  /** evbuffer_copyout of some of the bytes there are, across as many chains as they lie in. */
  method CopyPart(buf: Evbuffer, dataOut: array<Byte>, datlen: nat)
    requires buf.Valid() && 0 < datlen <= buf.totalLen && datlen <= dataOut.Length
    requires dataOut !in Buffers(buf.chains)
    modifies dataOut
    ensures Copied(dataOut, buf.Content(), datlen)
    ensures forall k :: datlen <= k < dataOut.Length ==> dataOut[k] == old(dataOut[k])
  {
    hide Flat, Chain.Holds, Segment, Distinct, Apart, Copied;
    ghost var cs, ps := buf.chains, buf.pieces;
    ghost var i: nat, n := 0, |cs|;
    var chain, data: nat, left: nat := buf.first, 0, datlen;
    FlatEnds(ps);
    SegmentLengths(cs, ps, null);
    WalkFacts(cs, ps, 0);
    MemoryApart(cs, dataOut);
    NothingCopied(dataOut, buf.Content());
    while left > 0 && left >= chain.off
      invariant Segment(cs, ps, null) && i <= n && chain == ChainAt(cs, i)
      invariant data == |Flat(ps[..i])| && data + left == datlen && Copied(dataOut, buf.Content(), data)
      invariant left <= |Flat(ps[i..])|
      invariant forall k :: datlen <= k < dataOut.Length ==> dataOut[k] == old(dataOut[k])
      decreases n - i
    {
      WalkFacts(cs, ps, i);
      data := CopyChain(buf, dataOut, data, i, chain, chain.off);
      left := left - chain.off;
      chain := chain.next;
      i := i + 1;
    }
    if left > 0 {
      data := CopyChain(buf, dataOut, data, i, chain, left);
    }
  }

  /** evbuffer_copyout */
  method Copyout(buf: Evbuffer, dataOut: array<Byte>, datlen: nat) returns (result: int)
    requires buf.Valid() && datlen <= dataOut.Length && dataOut !in Buffers(buf.chains)
    modifies dataOut
    ensures buf.Valid() && buf.totalLen == |buf.Content()|
    ensures var n := Min(datlen, buf.totalLen);
      && result == (if n != 0 && buf.freezeStart then -1 else n)
      && dataOut[..] == if result < 0 then old(dataOut[..]) else buf.Content()[..n] + old(dataOut[n..])
  {
    hide Flat, Segment;
    var size := datlen;
    if size >= buf.totalLen { size := buf.totalLen; }
    if size == 0 { return 0; }
    if buf.freezeStart { return -1; }
    CopyPart(buf, dataOut, size);
    return size;
  }

  /** evbuffer_remove: what is copied out is what is drained. */
  method Remove(buf: Evbuffer, dataOut: array<Byte>, datlen: nat) returns (n: int)
    requires buf.Valid() && datlen <= dataOut.Length && dataOut !in Buffers(buf.chains)
    modifies buf`first, buf`last, buf`lastWithDatap, buf`totalLen, buf`chains, buf`pieces, buf.chains, dataOut
    ensures buf.Valid()
    ensures n == if buf.freezeStart && Min(datlen, old(buf.totalLen)) != 0 then -1 else Min(datlen, old(buf.totalLen))
    ensures n < 0 ==> buf.Content() == old(buf.Content()) && dataOut[..] == old(dataOut[..])
    ensures n >= 0 ==> dataOut[..n] + buf.Content() == old(buf.Content()) && dataOut[n..] == old(dataOut[..])[n..]
    ensures old(NoneEmpty(buf.pieces)) ==> NoneEmpty(buf.pieces)
    ensures Suffix(buf.chains, old(buf.chains))
  {
    hide Flat, Segment, Evbuffer.Valid;
    n := Copyout(buf, dataOut, datlen);
    if n > 0 {
      var drained := Drain(buf, n);
      if drained < 0 { n := -1; }
    }
  }
}
