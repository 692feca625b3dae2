/** Making the first bytes of a chained buffer contiguous (libevent2/buffer.c). */
module EvbufferPullup {
  import opened Octets
  import opened ByteLists
  import opened EvbufferChains
  import opened EvbufferRemoval
  import opened EvbufferMoves

  /** memcpy into a chain whose data is not all counted yet. */
  method Put(tmp: Chain, at: nat, data: seq<Byte>)
    requires at + |data| <= tmp.buffer.Length
    modifies tmp.buffer
    ensures forall lo: nat :: lo <= at ==> tmp.buffer[lo..at + |data|] == old(tmp.buffer[lo..at]) + data
  {
    tmp.Store(at, data);
    forall lo: nat | lo <= at ensures tmp.buffer[lo..at + |data|] == old(tmp.buffer[lo..at]) + data {
      assert tmp.buffer[lo..at + |data|] == tmp.buffer[..at][lo..] + tmp.buffer[at..at + |data|];
      assert old(tmp.buffer[lo..at]) == old(tmp.buffer[..at])[lo..];
    }
  }

  /** One of the first i chains has the link. */
  ghost predicate LinkTaken(link: Link, ds: seq<Chain>, i: nat)
    requires i <= |ds|
  {
    exists k :: 0 <= k < i && link == NextOf(ds[k])
  }

  /** Copies every chain that is pulled in whole behind the bytes at `at`, and notes whether the last
      chain with data, or the one that links to it, is among them. */
  method PullWhole(tmp: Chain, at: nat, size: nat, head: Chain?, lwd: Link, lastWithData: Chain?,
                   ghost lo: nat, ghost ds: seq<Chain>, ghost qs: seq<seq<Byte>>)
    returns (chain: Chain?, left: nat, removedLast: bool, removedLink: bool, ghost i: nat)
    requires Segment(ds, qs, null) && head == Head(ds, null) && tmp !in ds && tmp.buffer !in Buffers(ds)
    requires lo <= at && size <= |Flat(qs)| && at + size <= tmp.buffer.Length
    modifies tmp.buffer
    ensures Segment(ds, qs, null) && i <= |ds| == |qs| && chain == ChainAt(ds, i)
    ensures left + |Flat(qs[..i])| == size && if i < |ds| then left < chain.off && chain.off == |qs[i]| else left == 0
    ensures tmp.buffer[lo..at + size - left] == old(tmp.buffer[lo..at]) + Flat(qs[..i])
    ensures removedLast <==> lastWithData in ds[..i]
    ensures removedLink <==> LinkTaken(lwd, ds, i)
  {
    hide Flat, Chain.Holds, Segment, Distinct, Apart, LinkTaken;
    ghost var n, was := |ds|, tmp.buffer[lo..at];
    FlatEnds(qs);
    SegmentLengths(ds, qs, null);
    MemoryApart(ds, tmp);
    chain, left, removedLast, removedLink, i := head, size, false, false, 0;
    var buffer: nat := at;
    assert was + [] == was;
    NoLinkTaken(lwd, ds);
    while chain != null && left >= chain.off
      invariant Segment(ds, qs, null) && i <= n && chain == ChainAt(ds, i)
      invariant left + |Flat(qs[..i])| == size && buffer == at + size - left && left <= |Flat(qs[i..])|
      invariant tmp.buffer[lo..buffer] == was + Flat(qs[..i])
      invariant removedLast <==> lastWithData in ds[..i]
      invariant removedLink <==> LinkTaken(lwd, ds, i)
      decreases n - i
    {
      WalkFacts(ds, qs, i);
      Put(tmp, buffer, chain.buffer[chain.misalign..chain.misalign + chain.off]);
      Associative(was, Flat(qs[..i]), qs[i]);
      left := left - chain.off;
      buffer := buffer + chain.off;
      if chain == lastWithData { removedLast := true; }
      if NextOf(chain) == lwd { removedLink := true; }
      assert ds[..i + 1] == ds[..i] + [chain];
      NextLinkTaken(lwd, ds, i);
      chain := chain.next;
      i := i + 1;
    }
    if i < n { WalkFacts(ds, qs, i); }
  }

  lemma NoLinkTaken(lwd: Link, ds: seq<Chain>)
    ensures !LinkTaken(lwd, ds, 0)
  {
  }

  lemma NextLinkTaken(lwd: Link, ds: seq<Chain>, i: nat)
    requires i < |ds|
    ensures LinkTaken(lwd, ds, i + 1) <==> LinkTaken(lwd, ds, i) || NextOf(ds[i]) == lwd
  {
  }

  /** Puts the chain the bytes were pulled into in front of the chains that are left. */
  method Splice(buf: Evbuffer, tmp: Chain, chain: Chain?, left: nat, removedLast: bool, removedLink: bool,
                ghost p: seq<Byte>, ghost ds: seq<Chain>, ghost qs: seq<seq<Byte>>, ghost i: nat)
    requires buf.first == tmp && tmp.Holds(p) && tmp !in ds && tmp.buffer !in Buffers(ds)
    requires Segment(ds, qs, null) && |ds| == |qs| > 0 && i <= |ds| && chain == ChainAt(ds, i)
    requires if i < |ds| then left < chain.off && left < |qs[i]| else left == 0
    requires qs[|qs| - 1] != [] && buf.last == ds[|ds| - 1]
    requires buf.lastWithDatap == if |ds| == 1 then NextOf(tmp) else NextOf(ds[|ds| - 2])
    requires removedLast <==> i == |ds|
    requires removedLink <==> |ds| > 1 && i >= |ds| - 1
    requires buf.totalLen == |p| + |Flat(qs)| - |Flat(qs[..i])| - left
    modifies buf`last, buf`lastWithDatap, buf`chains, buf`pieces, tmp`next, ds`misalign, ds`off
    ensures buf.Valid() && buf.chains == [tmp] + ds[i..]
    ensures buf.pieces == [p] + if i < |ds| then Cut(qs, i, left) else []
  {
    hide Flat, Chain.Holds, Segment, Distinct, Apart, Evbuffer.Holding, Evbuffer.Valid;
    ghost var rest: seq<seq<Byte>> := [];
    FlatEnds(qs);
    NoChains();
    MemoryApart(ds, tmp);
    if chain != null {
      FlatCut(qs, i, left);
      DropFrom(chain, left, ds, qs, i);
      rest := Cut(qs, i, left);
    } else {
      assert qs[..i] == qs;
      buf.last := tmp;
    }
    BuffersOfPart(ds, i);
    Attach(buf, tmp, chain, p, ds[i..], rest);
    SettleLink(buf, removedLast, removedLink);
  }

  /** Puts a chain in front of others. */
  method Attach(buf: Evbuffer, tmp: Chain, chain: Chain?, ghost p: seq<Byte>, ghost cs: seq<Chain>,
                ghost ps: seq<seq<Byte>>)
    requires buf.first == tmp && tmp.Holds(p) && tmp !in cs && tmp.buffer !in Buffers(cs)
    requires Segment(cs, ps, null) && chain == Head(cs, null)
    requires buf.last == (if cs == [] then tmp else cs[|cs| - 1]) && (ps != [] ==> ps[|ps| - 1] != [])
    requires buf.totalLen == |p| + |Flat(ps)|
    modifies tmp`next, buf`chains, buf`pieces
    ensures buf.Holding() && buf.chains == [tmp] + cs && buf.pieces == [p] + ps
  {
    hide Flat, Chain.Holds, Segment, Distinct, Apart;
    SegmentLengths(cs, ps, null);
    MemoryApart(cs, tmp);
    tmp.next := chain;
    FlatPrepend(p, ps);
    SegmentCons(tmp, p, cs, ps, null);
    MemoryApart([tmp] + cs, buf);
    buf.chains, buf.pieces := [tmp] + cs, [p] + ps;
  }

  /** The pointer to the last chain with data, where the chain that had it was taken. */
  method SettleLink(buf: Evbuffer, removedLast: bool, removedLink: bool)
    requires buf.Holding() && buf.first != null && (|buf.pieces| > 1 ==> buf.pieces[|buf.pieces| - 1] != [])
    requires removedLast <==> |buf.chains| == 1
    requires removedLink ==> |buf.chains| <= 2
    requires !removedLast && !removedLink ==> buf.lastWithDatap == LinkAt(buf, buf.chains, |buf.chains| - 1)
    modifies buf`lastWithDatap
    ensures buf.Valid()
  {
    hide Flat, Chain.Holds, Segment, Distinct, Apart;
    SegmentLengths(buf.chains, buf.pieces, null);
    WalkFacts(buf.chains, buf.pieces, 0);
    if |buf.chains| > 1 { WalkFacts(buf.chains, buf.pieces, 1); }
    if removedLast {
      buf.lastWithDatap := FirstOf(buf);
    } else if removedLink {
      buf.lastWithDatap := if buf.first.next != null && buf.first.next.off != 0 then NextOf(buf.first)
        else FirstOf(buf);
    }
  }

  /** Which chains were pulled in whole tells whether the last one was, and the one that links to it. */
  lemma LastTaken(ds: seq<Chain>, qs: seq<seq<Byte>>, i: nat, lwd: Link, tmp: Chain)
    requires Segment(ds, qs, null) && 0 < |ds| && i <= |ds| && tmp !in ds
    requires lwd == if |ds| == 1 then NextOf(tmp) else NextOf(ds[|ds| - 2])
    ensures ds[|ds| - 1] in ds[..i] <==> i == |ds|
    ensures LinkTaken(lwd, ds, i) <==> |ds| > 1 && i >= |ds| - 1
  {
    hide Chain.Holds;
    if |ds| > 1 && i >= |ds| - 1 {
      assert lwd == NextOf(ds[|ds| - 2]);
    }
  }

  lemma PrefixOfTwo(a: seq<Byte>, b: seq<Byte>, n: nat)
    requires n <= |b|
    ensures (a + b)[..|a| + n] == a + b[..n]
  {
  }

  /** The bytes of the chains are copied behind those in tmp. */
  method PullBytes(tmp: Chain, at: nat, size: nat, head: Chain?, lwd: Link, lastWithData: Chain?,
                   ghost done: seq<Byte>, ghost ds: seq<Chain>, ghost qs: seq<seq<Byte>>)
    returns (chain: Chain?, left: nat, removedLast: bool, removedLink: bool, ghost i: nat)
    requires Segment(ds, qs, null) && head == Head(ds, null) && tmp !in ds && tmp.buffer !in Buffers(ds)
    requires size <= |Flat(qs)| && at + size <= tmp.buffer.Length
    requires at == tmp.misalign + |done| && tmp.buffer[tmp.misalign..at] == done && tmp.off == |done| + size
    requires 0 < tmp.buffer.Length
    modifies tmp.buffer
    ensures Segment(ds, qs, null) && i <= |ds| == |qs| && chain == ChainAt(ds, i)
    ensures left + |Flat(qs[..i])| == size && if i < |ds| then left < chain.off && chain.off == |qs[i]| else left == 0
    ensures tmp.Holds((done + Flat(qs))[..|done| + size])
    ensures removedLast <==> lastWithData in ds[..i]
    ensures removedLink <==> LinkTaken(lwd, ds, i)
  {
    hide Flat, Chain.Holds, Segment, Distinct, Apart;
    chain, left, removedLast, removedLink, i := PullWhole(tmp, at, size, head, lwd, lastWithData, tmp.misalign, ds, qs);
    PrefixOfTwo(done, Flat(qs), size);
    if chain != null {
      WalkFacts(ds, qs, i);
      FlatCut(qs, i, left);
      MemoryApart(ds, tmp);
      var piece := chain.buffer[chain.misalign..chain.misalign + left];
      assert piece == qs[i][..left];
      Put(tmp, at + size - left, piece);
      Associative(done, Flat(qs[..i]), piece);
    } else {
      assert qs[..i] == qs;
    }
    HoldsSlice(tmp, (done + Flat(qs))[..|done| + size]);
  }

  /** The chains copied into tmp, in part or whole, and tmp put in front of the rest. */
  method PullInto(buf: Evbuffer, tmp: Chain, at: nat, size: nat, head: Chain?,
                  ghost done: seq<Byte>, ghost ds: seq<Chain>, ghost qs: seq<seq<Byte>>)
    requires buf.first == tmp && tmp !in ds && tmp.buffer !in Buffers(ds)
    requires Segment(ds, qs, null) && |ds| == |qs| > 0 && head == ds[0] && qs[|qs| - 1] != []
    requires buf.last == ds[|ds| - 1] && (|ds| == 1 ==> tmp.next == head)
    requires buf.lastWithDatap == if |ds| == 1 then NextOf(tmp) else NextOf(ds[|ds| - 2])
    requires buf.totalLen == |done| + |Flat(qs)| && size <= |Flat(qs)|
    requires at == tmp.misalign + |done| && tmp.off == |done| + size && at + size <= tmp.buffer.Length
    requires tmp.buffer[tmp.misalign..at] == done && 0 < tmp.buffer.Length
    modifies buf`last, buf`lastWithDatap, buf`chains, buf`pieces, tmp`next, tmp.buffer, ds`misalign, ds`off
    ensures buf.Valid() && buf.Content() == done + Flat(qs)
    ensures NoneEmpty(qs) && |done| + size > 0 ==> NoneEmpty(buf.pieces)
    ensures tmp.off == |done| + size && tmp.Holds((done + Flat(qs))[..|done| + size])
    ensures forall c :: c in buf.chains ==> c == tmp || c in ds
  {
    hide Flat, Chain.Holds, Segment, Distinct, Apart, LinkTaken, Cut, NoneEmpty;
    ghost var n := |ds|;
    if n > 1 { WalkFacts(ds, qs, n - 2); }
    var lastWithData := Target(buf.lastWithDatap);
    var chain, left, removedLast, removedLink, i :=
      PullBytes(tmp, at, size, head, buf.lastWithDatap, lastWithData, done, ds, qs);
    LastTaken(ds, qs, i, buf.lastWithDatap, tmp);
    ghost var p := (done + Flat(qs))[..|done| + size];
    FlatRest(done, qs, i, left, size);
    SplicedNoneEmpty(p, qs, i, left);
    Splice(buf, tmp, chain, left, removedLast, removedLink, p, ds, qs, i);
  }

  lemma SplicedNoneEmpty(p: seq<Byte>, qs: seq<seq<Byte>>, i: nat, left: nat)
    requires i <= |qs| && (i < |qs| ==> left < |qs[i]|)
    ensures NoneEmpty(qs) && p != [] ==> NoneEmpty([p] + if i < |qs| then Cut(qs, i, left) else [])
  {
  }

  /** What is left of the pieces, behind what was pulled in, is all there was. */
  lemma FlatRest(done: seq<Byte>, qs: seq<seq<Byte>>, i: nat, left: nat, size: nat)
    requires i <= |qs| && left + |Flat(qs[..i])| == size <= |Flat(qs)|
    requires if i < |qs| then left < |qs[i]| else left == 0
    ensures Flat([(done + Flat(qs))[..|done| + size]] + if i < |qs| then Cut(qs, i, left) else []) == done + Flat(qs)
  {
    hide Flat;
    var p, rest := (done + Flat(qs))[..|done| + size], if i < |qs| then Cut(qs, i, left) else [];
    FlatPrepend(p, rest);
    PrefixOfTwo(done, Flat(qs), size);
    if i < |qs| {
      FlatCut(qs, i, left);
    } else {
      assert qs[..i] == qs && Flat(qs)[size..] == [];
      NoChains();
    }
    Rejoined(done, Flat(qs), size);
  }

  lemma Rejoined(a: seq<Byte>, b: seq<Byte>, n: nat)
    requires n <= |b|
    ensures a + b[..n] + b[n..] == a + b
  {
  }

  /** evbuffer_pullup across chains: into the first chain where it has the room, or else into a new one. */
  method PullAcross(buf: Evbuffer, size: nat) returns (tmp: Chain)
    requires buf.Valid() && buf.first != null && buf.first.off < size <= buf.totalLen
    modifies buf`first, buf`last, buf`lastWithDatap, buf`chains, buf`pieces, buf.chains, Buffers(buf.chains)
    ensures buf.Valid() && buf.Content() == old(buf.Content()) && size <= |buf.Content()|
    ensures tmp == buf.first && tmp.off == size && tmp.Holds(buf.Content()[..size])
    ensures old(NoneEmpty(buf.pieces)) ==> NoneEmpty(buf.pieces)
    ensures forall c :: c in buf.chains ==> c in old(buf.chains) || (fresh(c) && fresh(c.buffer))
  {
    hide Flat, Chain.Holds, Segment, Distinct, Apart;
    ghost var cs, ps := buf.chains, buf.pieces;
    var chain := buf.first;
    SegmentLengths(cs, ps, null);
    SegmentAt(cs, ps, null, 0);
    HoldsLength(chain, ps[0]);
    FlatEnds(ps);
    WalkFacts(cs, ps, 0);
    assert |cs| > 1 by {
      if |cs| == 1 { assert ps == [ps[0]]; FlatOne(ps[0]); }
    }
    MemoryApart(cs, buf);
    if chain.buffer.Length - chain.misalign >= size {
      tmp := chain;
      var oldOff := chain.off;
      tmp.off := size;
      PullInto(buf, tmp, tmp.misalign + oldOff, size - oldOff, chain.next, ps[0], cs[1..], ps[1..]);
    } else {
      tmp := new Chain.New(size);
      tmp.off := size;
      buf.first := tmp;
      PullInto(buf, tmp, 0, size, chain, [], cs, ps);
      assert [] + Flat(ps) == Flat(ps);
    }
  }

  /** evbuffer_pullup: a chain whose data starts with as many bytes as were asked for, or nothing where
      there are not as many. */
  method Pullup(buf: Evbuffer, size: int) returns (result: Chain?)
    requires buf.Valid()
    modifies buf`first, buf`last, buf`lastWithDatap, buf`chains, buf`pieces, buf.chains, Buffers(buf.chains)
    ensures buf.Valid() && buf.Content() == old(buf.Content()) && buf.totalLen == |buf.Content()|
    ensures var want := if size < 0 then buf.totalLen else size;
      && (result != null <==> 0 < want <= buf.totalLen)
      && (result != null ==> result == buf.first && want <= result.off)
      && (result != null ==> result.misalign + result.off <= result.buffer.Length)
      && (result != null ==> result.buffer[result.misalign..result.misalign + want] == buf.Content()[..want])
    ensures old(NoneEmpty(buf.pieces)) ==> NoneEmpty(buf.pieces)
    ensures forall c :: c in buf.chains ==> c in old(buf.chains) || (fresh(c) && fresh(c.buffer))
  {
    hide Flat, Chain.Holds, Segment, Distinct, Apart, NoneEmpty;
    var want: nat := if size < 0 then buf.totalLen else size;
    if want == 0 || want > buf.totalLen { return null; }
    NoBytes(buf);
    WalkFacts(buf.chains, buf.pieces, 0);
    FlatEnds(buf.pieces);
    if buf.first.off >= want {
      FlatCut(buf.pieces, 0, want);
      assert buf.pieces[0][..want] == buf.Content()[..want];
      return buf.first;
    }
    result := PullAcross(buf, want);
    HoldsLength(result, buf.Content()[..want]);
  }
}
