/** Searching a chained buffer, across chain boundaries (libevent2/buffer.c). */
module EvbufferSearch {
  import opened Octets
  import opened ByteLists
  import opened EvbufferChains
  import opened EvbufferRemoval

  /** struct evbuffer_ptr */
  datatype Ptr = Ptr(pos: int, chain: Chain?, posInChain: nat)

  datatype MaybePtr = NoPtr | Given(ptr: Ptr)

  const NOWHERE: Ptr := Ptr(-1, null, 0)

  /** A pointer into chain i, or behind its last byte, is at the position it says. */
  ghost predicate PointsTo(cs: seq<Chain>, ps: seq<seq<Byte>>, p: Ptr, i: nat) {
    && i <= |cs| == |ps| && p.chain == ChainAt(cs, i) && p.pos == |Flat(ps[..i])| + p.posInChain
    && p.posInChain <= if i < |ps| then |ps[i]| else 0
  }

  ghost predicate PtrOk(cs: seq<Chain>, ps: seq<seq<Byte>>, p: Ptr) {
    exists i :: PointsTo(cs, ps, p, i)
  }

  ghost predicate Occurs(s: seq<Byte>, p: int, what: seq<Byte>) {
    0 <= p && p + |what| <= |s| && s[p..p + |what|] == what
  }

  /** What lies in chain i lies at the same distance behind all the chains before it. */
  lemma FlatSlice(ps: seq<seq<Byte>>, i: nat, a: nat, b: nat)
    requires i < |ps| && a <= b <= |ps[i]|
    ensures |Flat(ps[..i])| + b <= |Flat(ps)| && Flat(ps)[|Flat(ps[..i])| + a..|Flat(ps[..i])| + b] == ps[i][a..b]
  {
    hide Flat;
    FlatAt(ps, i);
    SliceInMiddle(Flat(ps[..i]), ps[i], Flat(ps[i + 1..]), a, b);
  }

  lemma SliceInMiddle(x: seq<Byte>, p: seq<Byte>, y: seq<Byte>, a: nat, b: nat)
    requires a <= b <= |p|
    ensures (x + (p + y))[|x| + a..|x| + b] == p[a..b]
  {
  }

  /** memchr: the offset of the first such byte, or the length. */
  method Memchr(s: array<Byte>, from: nat, len: nat, c: Byte) returns (p: nat)
    requires from + len <= s.Length
    ensures p <= len && (forall k :: from <= k < from + p ==> s[k] != c) && (p < len ==> s[from + p] == c)
  {
    p := 0;
    while p < len && s[from + p] != c
      invariant p <= len && forall k :: from <= k < from + p ==> s[k] != c
    {
      p := p + 1;
    }
  }

  /** memcmp: the difference of the first bytes that differ. */
  method Memcmp(s: array<Byte>, from: nat, mem: seq<Byte>, at: nat, n: nat) returns (r: int)
    requires from + n <= s.Length && at + n <= |mem|
    ensures r == 0 <==> s[from..from + n] == mem[at..at + n]
  {
    var k := 0;
    ghost var a, b := s[from..from + n], mem[at..at + n];
    while k < n
      invariant k <= n && forall j :: 0 <= j < k ==> a[j] == b[j]
    {
      assert a[k] == s[from + k] && b[k] == mem[at + k];
      if s[from + k] != mem[at + k] { return s[from + k] as int - mem[at + k] as int; }
      k := k + 1;
    }
    assert a == b;
    return 0;
  }

  lemma OccursInSlice(s: seq<Byte>, p: nat, what: seq<Byte>, n: nat, m: nat)
    requires n <= m <= |what| && Occurs(s, p, what)
    ensures s[p + n..p + m] == what[n..m]
  {
    forall k | n <= k < m ensures s[p + k] == what[k] {
      assert s[p..p + |what|][k] == s[p + k];
    }
  }

  /** A position in the buffer falls where the bytes of the pattern are, and nowhere else. */
  lemma OccursInParts(s: seq<Byte>, p: nat, what: seq<Byte>, n: nat, m: nat, part: seq<Byte>)
    requires n <= m <= |what| && p + |what| <= |s| && s[p..p + n] == what[..n] && part == s[p + n..p + m]
    ensures part == what[n..m] ==> s[p..p + m] == what[..m]
    ensures part != what[n..m] ==> !Occurs(s, p, what)
  {
    if s[p + n..p + m] == what[n..m] {
      assert s[p..p + m] == s[p..p + n] + s[p + n..p + m];
      assert what[..m] == what[..n] + what[n..m];
    }
    if Occurs(s, p, what) { OccursInSlice(s, p, what, n, m); }
  }

  lemma SliceOfSlice(s: array<Byte>, a: nat, len: nat, b: nat, n: nat)
    requires a + len <= s.Length && b + n <= len
    ensures s[a..a + len][b..b + n] == s[a + b..a + b + n]
  {
    var all, part := s[a..a + len], s[a + b..a + b + n];
    forall k | 0 <= k < n ensures all[b..b + n][k] == part[k] {
      assert all[b + k] == s[a + (b + k)] && part[k] == s[a + b + k];
    }
  }

  lemma PartAt(ps: seq<seq<Byte>>, i: nat, position: nat, n: nat, from: nat)
    requires i < |ps| && position + n <= |ps[i]| && from == |Flat(ps[..i])| + position
    ensures from + n <= |Flat(ps)| && Flat(ps)[from..from + n] == ps[i][position..position + n]
  {
    hide Flat;
    FlatSlice(ps, i, position, position + n);
  }

  /** One chain's part of a comparison: n of the len bytes left. */
  method CompareChain(ghost cs: seq<Chain>, ghost ps: seq<seq<Byte>>, chain: Chain, position: nat, pos: nat,
                      mem: seq<Byte>, at: nat, len: nat, ghost i: nat) returns (r: int, n: nat)
    requires Segment(cs, ps, null) && i < |cs| == |ps| && chain == cs[i] && position <= |ps[i]|
    requires at + len == |mem| && pos + at == |Flat(ps[..i])| + position && pos + |mem| <= |Flat(ps)|
    requires Flat(ps)[pos..pos + at] == mem[..at]
    ensures n <= len && (n < len ==> pos + at + n == |Flat(ps[..i + 1])|) && chain.next == ChainAt(cs, i + 1)
    ensures pos + at + n <= |Flat(ps)|
    ensures r == 0 ==> Flat(ps)[pos..pos + at + n] == mem[..at + n]
    ensures r != 0 ==> !Occurs(Flat(ps), pos, mem)
  {
    hide Flat, Chain.Holds, Segment, Distinct, Apart, Occurs;
    WalkFacts(cs, ps, i);
    n := if len + position > chain.off then chain.off - position else len;
    r := Memcmp(chain.buffer, chain.misalign + position, mem, at, n);
    SliceOfSlice(chain.buffer, chain.misalign, chain.off, position, n);
    PartAt(ps, i, position, n, pos + at);
    OccursInParts(Flat(ps), pos, mem, at, at + n, ps[i][position..position + n]);
  }

  lemma OccursIs(s: seq<Byte>, p: nat, what: seq<Byte>)
    ensures Occurs(s, p, what) <==> p + |what| <= |s| && s[p..p + |what|] == what[..|what|]
  {
    assert what[..|what|] == what;
  }

  /** evbuffer_ptr_memcmp, across chains. */
  method PtrMemcmp(buf: Evbuffer, pos: Ptr, mem: seq<Byte>, ghost i0: nat) returns (r: int)
    requires buf.Valid() && PointsTo(buf.chains, buf.pieces, pos, i0)
    ensures buf.Valid() && (r == 0 <==> Occurs(buf.Content(), pos.pos, mem))
  {
    hide Flat, Chain.Holds, Segment, Distinct, Apart, Occurs;
    ghost var cs, ps, n := buf.chains, buf.pieces, |buf.chains|;
    OccursIs(Flat(ps), pos.pos, mem);
    var len: nat := |mem|;
    if pos.pos + len > buf.totalLen { return -1; }
    var chain, position: nat, at: nat := pos.chain, pos.posInChain, 0;
    ghost var i := i0;
    while len > 0 && chain != null
      invariant Segment(cs, ps, null) && at + len == |mem| && i <= n && chain == ChainAt(cs, i)
      invariant len > 0 ==> pos.pos + at == |Flat(ps[..i])| + position && position <= if i < n then |ps[i]| else 0
      invariant Flat(ps)[pos.pos..pos.pos + at] == mem[..at]
      decreases n - i
    {
      assert forall b :: b in Buffers(cs) ==> allocated(b);
      var comparable;
      r, comparable := CompareChain(cs, ps, chain, position, pos.pos, mem, at, len, i);
      if r != 0 { return; }
      at := at + comparable;
      len := len - comparable;
      position := 0;
      chain := chain.next;
      i := i + 1;
    }
    AtEnd(ps, i);
    return 0;
  }

  lemma AtEnd(ps: seq<seq<Byte>>, i: nat)
    requires i <= |ps|
    ensures i == |ps| ==> Flat(ps[..i]) == Flat(ps)
  {
    if i == |ps| { assert ps[..i] == ps; }
  }

  ghost predicate NoneBefore(s: seq<Byte>, from: int, upTo: int, what: seq<Byte>) {
    forall q {:trigger Occurs(s, q, what)} :: from <= q < upTo ==> !Occurs(s, q, what)
  }

  /** A byte of the buffer's content, read through chain i. */
  lemma ByteAt(ps: seq<seq<Byte>>, i: nat, k: nat)
    requires i < |ps| && k < |ps[i]|
    ensures |Flat(ps[..i])| + k < |Flat(ps)| && Flat(ps)[|Flat(ps[..i])| + k] == ps[i][k]
  {
    hide Flat;
    FlatSlice(ps, i, k, k + 1);
    assert Flat(ps)[|Flat(ps[..i])| + k..|Flat(ps[..i])| + k + 1][0] == ps[i][k..k + 1][0];
  }

  /** memchr from a position to the end of its chain. */
  method ScanChain(ghost cs: seq<Chain>, ghost ps: seq<seq<Byte>>, pos: Ptr, c: Byte, ghost i: nat) returns (p: nat)
    requires Segment(cs, ps, null) && PointsTo(cs, ps, pos, i) && pos.chain != null
    ensures i < |ps| && pos.chain.off == |ps[i]| && pos.posInChain + p <= |ps[i]|
    ensures pos.pos + |ps[i]| - pos.posInChain == |Flat(ps[..i + 1])| <= |Flat(ps)|
    ensures forall q :: pos.pos <= q < pos.pos + p ==> Flat(ps)[q] != c
    ensures pos.posInChain + p < |ps[i]| ==> Flat(ps)[pos.pos + p] == c
  {
    hide Flat, Chain.Holds, Segment, Distinct, Apart;
    var chain := pos.chain;
    WalkFacts(cs, ps, i);
    p := Memchr(chain.buffer, chain.misalign + pos.posInChain, chain.off - pos.posInChain, c);
    FlatSlice(ps, i, 0, |ps[i]|);
    forall q | pos.pos <= q < pos.pos + p ensures Flat(ps)[q] != c {
      ByteAt(ps, i, q - |Flat(ps[..i])|);
      assert ps[i][q - |Flat(ps[..i])|] == chain.buffer[chain.misalign + (q - |Flat(ps[..i])|)];
    }
    if pos.posInChain + p < |ps[i]| {
      ByteAt(ps, i, pos.posInChain + p);
      assert ps[i][pos.posInChain + p] == chain.buffer[chain.misalign + pos.posInChain + p];
    }
  }

  /** Where the first byte of a pattern does not occur, the pattern does not start. */
  lemma NoFirstByte(s: seq<Byte>, from: int, a: nat, b: nat, what: seq<Byte>)
    requires what != [] && a <= b <= |s| && NoneBefore(s, from, a, what)
    requires forall q :: a <= q < b ==> s[q] != what[0]
    ensures NoneBefore(s, from, b, what)
  {
    StartsWithFirst(s, what);
  }

  lemma StartsWithFirst(s: seq<Byte>, what: seq<Byte>)
    requires what != []
    ensures forall q {:trigger Occurs(s, q, what)} :: Occurs(s, q, what) ==> 0 <= q < |s| && s[q] == what[0]
  {
    forall q | Occurs(s, q, what) ensures 0 <= q < |s| && s[q] == what[0] {
      assert s[q..q + |what|][0] == what[0];
    }
  }

  /** What evbuffer_search_range promises: the first occurrence from the start, if it ends by the end. */
  ghost predicate Answers(s: seq<Byte>, from: int, what: seq<Byte>, end: MaybePtr, r: int) {
    if r >= 0 then
      from <= r && Occurs(s, r, what) && NoneBefore(s, from, r, what) && (end.Given? ==> r + |what| <= end.ptr.pos)
    else
      r == -1 && forall q :: from <= q && Occurs(s, q, what) ==> end.Given? && q + |what| > end.ptr.pos
  }

  /** Past all the bytes, or past the end that was given, there is nothing left to find. */
  lemma AnswerNone(s: seq<Byte>, from: int, what: seq<Byte>, end: MaybePtr, upTo: int)
    requires what != [] && NoneBefore(s, from, upTo, what)
    requires upTo >= |s| || (end.Given? && end.ptr.pos <= upTo)
    ensures Answers(s, from, what, end, -1)
  {
  }

  lemma AnswerFound(s: seq<Byte>, from: int, what: seq<Byte>, end: MaybePtr, r: int)
    requires from <= r && 0 <= r && Occurs(s, r, what) && NoneBefore(s, from, r, what)
    ensures Answers(s, from, what, end, if end.Given? && r + |what| > end.ptr.pos then -1 else r)
  {
  }

  lemma MissedOne(s: seq<Byte>, from: int, p: int, what: seq<Byte>)
    requires NoneBefore(s, from, p, what) && !Occurs(s, p, what)
    ensures NoneBefore(s, from, p + 1, what)
  {
  }

  /** A pointer into a chain is before the next chain. */
  lemma EndInChain(cs: seq<Chain>, ps: seq<seq<Byte>>, p: Ptr, i: nat)
    requires Segment(cs, ps, null) && PtrOk(cs, ps, p) && i < |cs| && p.chain == cs[i]
    ensures p.pos <= |Flat(ps[..i + 1])|
  {
    hide Flat, Chain.Holds;
    var j :| PointsTo(cs, ps, p, j);
    assert j == i;
    FlatAt(ps, i);
  }

  /** A pointer moves within its chain, and from the end of its chain to the next one. */
  lemma PtrMoves(cs: seq<Chain>, ps: seq<seq<Byte>>, p: Ptr, i: nat, k: nat)
    requires PointsTo(cs, ps, p, i) && i < |cs| && p.posInChain + k <= |ps[i]|
    ensures PointsTo(cs, ps, Ptr(p.pos + k, p.chain, p.posInChain + k), i)
    ensures PointsTo(cs, ps, Ptr(p.pos + |ps[i]| - p.posInChain, ChainAt(cs, i + 1), 0), i + 1)
  {
    hide Flat;
    FlatAt(ps, i);
  }

  lemma PtrKnown(cs: seq<Chain>, ps: seq<seq<Byte>>, p: Ptr, i: nat)
    requires PointsTo(cs, ps, p, i)
    ensures i <= |cs| == |ps| && (p.chain != null <==> i < |cs|)
      && (i < |cs| ==> p.chain == cs[i] && p.posInChain <= |ps[i]|)
    ensures 0 <= p.pos <= |Flat(ps)| && PtrOk(cs, ps, p)
    ensures if i == |cs| then p.pos == |Flat(ps)| else p.pos + |ps[i]| - p.posInChain <= |Flat(ps)|
  {
    hide Flat;
    AtEnd(ps, i);
    if i < |ps| { FlatSlice(ps, i, 0, |ps[i]|); }
  }

  /** The pointer a search starts from when none is given. */
  lemma PtrAtStart(buf: Evbuffer)
    requires buf.Valid()
    ensures PointsTo(buf.chains, buf.pieces, Ptr(0, buf.first, 0), 0)
  {
    FlatEnds(buf.pieces);
  }

  /** evbuffer_search_range */
  method SearchRange(buf: Evbuffer, what: seq<Byte>, start: MaybePtr, end: MaybePtr) returns (r: Ptr)
    requires buf.Valid() && (start.Given? ==> PtrOk(buf.chains, buf.pieces, start.ptr))
    requires end.Given? ==> PtrOk(buf.chains, buf.pieces, end.ptr)
    ensures var from := if start.Given? then start.ptr else Ptr(0, buf.first, 0);
      if what == [] then r == from else Answers(buf.Content(), from.pos, what, end, r.pos)
    ensures buf.Valid() && (r.pos >= 0 ==> PtrOk(buf.chains, buf.pieces, r))
  {
    hide Flat, Chain.Holds, Segment, Distinct, Apart, Occurs, NoneBefore, Answers, PointsTo;
    ghost var cs, ps, n, all := buf.chains, buf.pieces, |buf.chains|, buf.Content();
    PtrAtStart(buf);
    var pos := if start.Given? then start.ptr else Ptr(0, buf.first, 0);
    ghost var from := pos.pos;
    var lastChain := if end.Given? then end.ptr.chain else null;
    ghost var i: nat :| PointsTo(cs, ps, pos, i);
    PtrKnown(cs, ps, pos, i);
    if what == [] { return pos; }
    var chain := pos.chain;
    NothingBefore(all, from, what);
    while chain != null
      invariant Segment(cs, ps, null) && chain == pos.chain && PointsTo(cs, ps, pos, i)
      invariant from <= pos.pos && NoneBefore(all, from, pos.pos, what)
      decreases n - i, if i < n then |ps[i]| - pos.posInChain else 0
    {
      PtrKnown(cs, ps, pos, i);
      assert forall b :: b in Buffers(cs) ==> allocated(b);
      var p := ScanChain(cs, ps, pos, what[0], i);
      NoFirstByte(all, from, pos.pos, pos.pos + p, what);
      if p < chain.off - pos.posInChain {
        PtrMoves(cs, ps, pos, i, p);
        pos := Ptr(pos.pos + p, chain, pos.posInChain + p);
        PtrKnown(cs, ps, pos, i);
        var c := PtrMemcmp(buf, pos, what, i);
        if c == 0 {
          AnswerFound(all, from, what, end, pos.pos);
          if end.Given? && pos.pos + |what| > end.ptr.pos {
            return NOWHERE;
          }
          return pos;
        }
        MissedOne(all, from, pos.pos, what);
        PtrMoves(cs, ps, pos, i, 1);
        pos := Ptr(pos.pos + 1, chain, pos.posInChain + 1);
        if pos.posInChain == chain.off {
          ChainFacts(cs, ps, i);
          chain := chain.next;
          pos, i := Ptr(pos.pos, chain, 0), i + 1;
        }
      } else {
        if chain == lastChain {
          EndInChain(cs, ps, end.ptr, i);
          AnswerNone(all, from, what, end, pos.pos + p);
          return NOWHERE;
        }
        PtrMoves(cs, ps, pos, i, 0);
        ChainFacts(cs, ps, i);
        pos := Ptr(pos.pos + chain.off - pos.posInChain, chain.next, 0);
        chain, i := chain.next, i + 1;
      }
    }
    PtrKnown(cs, ps, pos, i);
    AnswerNone(all, from, what, end, pos.pos);
    return NOWHERE;
  }

  lemma NothingBefore(s: seq<Byte>, from: int, what: seq<Byte>)
    ensures NoneBefore(s, from, from, what)
  {
  }

  /** What a walk needs of the chain it has reached. */
  lemma ChainFacts(cs: seq<Chain>, ps: seq<seq<Byte>>, i: nat)
    requires Segment(cs, ps, null) && i < |cs|
    ensures |ps| == |cs| && cs[i].next == ChainAt(cs, i + 1)
    ensures cs[i].off == |ps[i]| && cs[i].misalign + cs[i].off <= cs[i].buffer.Length && cs[i].buffer in Buffers(cs)
  {
    assert CellOk(cs, ps, null, i);
  }
}
