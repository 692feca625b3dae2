/** Reading lines out of a chained buffer (libevent2/buffer.c). */
module EvbufferLines {
  import opened Octets
  import opened ByteLists
  import opened EvbufferChains
  import opened EvbufferRemoval
  import opened EvbufferMoves
  import opened EvbufferSearch

  const CR: Byte := 13
  const LF: Byte := 10

  datatype Style = AnyEol | CrlfStrict | Crlf | LfOnly

  predicate IsEol(c: Byte) {
    c == CR || c == LF
  }

  /** A terminator of the style starts at position q. */
  ghost predicate EolAt(s: seq<Byte>, style: Style, q: int) {
    0 <= q < |s| && match style
      case AnyEol => IsEol(s[q])
      case CrlfStrict => Occurs(s, q, [CR, LF])
      case Crlf => s[q] == LF || Occurs(s, q, [CR, LF])
      case LfOnly => s[q] == LF
  }

  ghost predicate FirstEol(s: seq<Byte>, style: Style, from: int, q: int) {
    from <= q && EolAt(s, style, q) && forall k {:trigger EolAt(s, style, k)} :: from <= k < q ==> !EolAt(s, style, k)
  }

  ghost predicate NoEol(s: seq<Byte>, style: Style, from: int) {
    forall k {:trigger EolAt(s, style, k)} :: from <= k ==> !EolAt(s, style, k)
  }

  /** How many of the bytes from q on, one after the other, are in a set. */
  ghost function Run(s: seq<Byte>, q: nat, chars: seq<Byte>): (n: nat)
    requires q <= |s|
    ensures q + n <= |s| && (forall k :: q <= k < q + n ==> s[k] in chars)
    ensures q + n < |s| ==> s[q + n] !in chars
    decreases |s| - q
  {
    if q < |s| && s[q] in chars then 1 + Run(s, q + 1, chars) else 0
  }

  /** The bytes of the terminator at q: all the line ends there for AnyEol. */
  ghost function EolLength(s: seq<Byte>, style: Style, q: nat): (n: nat)
    requires EolAt(s, style, q)
    ensures 1 <= n && q + n <= |s|
  {
    match style
    case AnyEol => Run(s, q, [CR, LF])
    case CrlfStrict => 2
    case Crlf => if s[q] == LF then 1 else 2
    case LfOnly => 1
  }

  /** find_eol_char, 128 bytes at a time. */
  method FindEolChar(s: array<Byte>, from: nat, len: nat) returns (p: nat)
    requires from + len <= s.Length
    ensures p <= len && (forall k :: from <= k < from + p ==> !IsEol(s[k])) && (p < len ==> IsEol(s[from + p]))
  {
    p := 0;
    while p < len
      invariant p <= len && forall k :: from <= k < from + p ==> !IsEol(s[k])
    {
      var chunk := if p + 128 < len then 128 else len - p;
      var cr := Memchr(s, from + p, chunk, CR);
      var lf := Memchr(s, from + p, chunk, LF);
      if cr < chunk {
        if lf < chunk && lf < cr {
          return p + lf;
        }
        return p + cr;
      } else if lf < chunk {
        return p + lf;
      }
      p := p + chunk;
    }
    return len;
  }

  /** No line end lies between two positions. */
  ghost predicate Free(s: seq<Byte>, from: int, upTo: int) {
    forall q :: from <= q < upTo && 0 <= q < |s| ==> !IsEol(s[q])
  }

  /** What a scan of one chain from a position found, in terms of the whole content. */
  lemma ScannedEol(cs: seq<Chain>, ps: seq<seq<Byte>>, pos: Ptr, i: nat, p: nat)
    requires Segment(cs, ps, null) && PointsTo(cs, ps, pos, i) && i < |cs|
    requires pos.posInChain + p <= |ps[i]| && pos.chain.misalign + |ps[i]| <= pos.chain.buffer.Length
    requires forall k {:trigger pos.chain.buffer[k]} ::
      pos.chain.misalign + pos.posInChain <= k < pos.chain.misalign + pos.posInChain + p ==> !IsEol(pos.chain.buffer[k])
    ensures |Flat(ps[..i])| + |ps[i]| <= |Flat(ps)|
    ensures 0 <= pos.pos && Free(Flat(ps), pos.pos, pos.pos + p)
    ensures pos.posInChain + p < |ps[i]| ==>
      Flat(ps)[pos.pos + p] == pos.chain.buffer[pos.chain.misalign + pos.posInChain + p]
  {
    hide Flat, Chain.Holds, Segment, Distinct, Apart;
    WalkFacts(cs, ps, i);
    var chain := pos.chain;
    FlatSlice(ps, i, 0, |ps[i]|);
    forall q | pos.pos <= q < pos.pos + p ensures !IsEol(Flat(ps)[q]) {
      ByteAt(ps, i, q - |Flat(ps[..i])|);
      assert ps[i][q - |Flat(ps[..i])|] == chain.buffer[chain.misalign + (q - |Flat(ps[..i])|)];
    }
    if pos.posInChain + p < |ps[i]| {
      ByteAt(ps, i, pos.posInChain + p);
      assert ps[i][pos.posInChain + p] == chain.buffer[chain.misalign + pos.posInChain + p];
    }
  }

  lemma FreeNone(s: seq<Byte>, a: int)
    ensures Free(s, a, a)
  {
  }

  lemma FreeJoins(s: seq<Byte>, a: int, b: int, c: int)
    requires Free(s, a, b) && Free(s, b, c)
    ensures Free(s, a, c)
  {
  }

  /** evbuffer_find_eol_char */
  method FindEol(buf: Evbuffer, it: Ptr, ghost i0: nat) returns (ok: bool, r: Ptr, ghost i: nat)
    requires buf.Valid() && PointsTo(buf.chains, buf.pieces, it, i0)
    ensures buf.Valid() && 0 <= it.pos
    ensures ok ==>
      PointsTo(buf.chains, buf.pieces, r, i) && it.pos <= r.pos < |buf.Content()| && IsEol(buf.Content()[r.pos])
    ensures ok ==> i < |buf.chains| == |buf.pieces| && r.posInChain < |buf.pieces[i]|
    ensures Free(buf.Content(), it.pos, if ok then r.pos else |buf.Content()|)
  {
    hide Flat, Chain.Holds, Segment, Distinct, Apart, PointsTo, Free;
    ghost var cs, ps, all := buf.chains, buf.pieces, buf.Content();
    PtrKnown(cs, ps, it, i0);
    r, i := it, i0;
    FreeNone(all, it.pos);
    while r.chain != null
      invariant Segment(cs, ps, null) && PointsTo(cs, ps, r, i) && it.pos <= r.pos
      invariant r.pos <= |all| && Free(all, it.pos, r.pos)
      decreases |cs| - i
    {
      PtrKnown(cs, ps, r, i);
      ChainFacts(cs, ps, i);
      var chain := r.chain;
      assert forall b :: b in Buffers(cs) ==> allocated(b);
      var p := FindEolChar(chain.buffer, chain.misalign + r.posInChain, chain.off - r.posInChain);
      ScannedEol(cs, ps, r, i, p);
      FreeJoins(all, it.pos, r.pos, r.pos + p);
      if p < chain.off - r.posInChain {
        PtrMoves(cs, ps, r, i, p);
        return true, Ptr(r.pos + p, chain, r.posInChain + p), i;
      }
      PtrMoves(cs, ps, r, i, p);
      r, i := Ptr(r.pos + chain.off - r.posInChain, chain.next, 0), i + 1;
    }
    PtrKnown(cs, ps, r, i);
    return false, r, i;
  }

  /** The first place of a byte from a position on; behind the last byte if there is none. */
  function FirstByte(s: seq<Byte>, from: int, chr: Byte): (q: int)
    ensures from <= q && (from <= |s| ==> q <= |s|)
    ensures 0 <= from && q < |s| ==> s[q] == chr
    ensures forall k :: 0 <= from <= k < q && k < |s| ==> s[k] != chr
    decreases |s| - from
  {
    if 0 <= from < |s| && s[from] != chr then FirstByte(s, from + 1, chr) else from
  }

  /** The bytes between a position and the end of its chain. */
  function RestOfChain(p: Ptr): nat
    reads p.chain
  {
    if p.chain != null && p.posInChain <= p.chain.off then p.chain.off - p.posInChain else 0
  }

  /** What evbuffer_strchr answers, started at pos with rest more bytes in the chain. There it adds the
      byte's distance from the chain's first byte, not from the position. */
  function StrchrAnswer(s: seq<Byte>, pos: int, rest: nat, posInChain: nat, chr: Byte): int {
    var q := FirstByte(s, pos, chr);
    if q >= |s| then -1 else if q < pos + rest then q + posInChain else q
  }

  ghost predicate Lacks(s: seq<Byte>, from: int, upTo: int, chr: Byte) {
    forall k :: from <= k < upTo && 0 <= k < |s| ==> s[k] != chr
  }

  /** It is the place of the byte exactly if the search starts at the first byte of a chain, or there is no
      such byte in the rest of the chain. */
  lemma StrchrRight(s: seq<Byte>, pos: nat, rest: nat, posInChain: nat, chr: Byte)
    requires pos + rest <= |s|
    ensures FirstByte(s, pos, chr) < |s| ==>
      (StrchrAnswer(s, pos, rest, posInChain, chr) == FirstByte(s, pos, chr) <==>
        posInChain == 0 || Lacks(s, pos, pos + rest, chr))
    ensures StrchrAnswer(s, pos, rest, posInChain, chr) == -1 <==> Lacks(s, pos, |s|, chr)
  {
    var q := FirstByte(s, pos, chr);
    assert q < pos + rest ==> s[q] == chr;
  }

  /** In the one chain "A LF", from its second byte on, the LF is found there and reported behind the end. */
  lemma StrchrWrong()
    ensures FirstByte([65, LF], 1, LF) == 1 && StrchrAnswer([65, LF], 1, 1, 1, LF) == 2
  {
    assert [65, LF][1] == LF;
  }

  /** evbuffer_strchr */
  method Strchr(buf: Evbuffer, it: Ptr, chr: Byte, ghost i0: nat) returns (ok: bool, r: Ptr)
    requires buf.Valid() && PointsTo(buf.chains, buf.pieces, it, i0)
    ensures buf.Valid() && 0 <= it.pos <= it.pos + RestOfChain(it) <= |buf.Content()|
    ensures var answer := StrchrAnswer(buf.Content(), it.pos, RestOfChain(it), it.posInChain, chr);
      ok == (answer >= 0) && (ok ==> r.pos == answer)
    ensures ok ==> PtrOk(buf.chains, buf.pieces, r.(pos := FirstByte(buf.Content(), it.pos, chr)))
  {
    hide Flat, Chain.Holds, Segment, Distinct, Apart, PointsTo, FirstByte;
    ghost var cs, ps, all := buf.chains, buf.pieces, buf.Content();
    PtrKnown(cs, ps, it, i0);
    var chain, from: nat, pos := it.chain, it.posInChain, it.pos;
    ghost var i := i0;
    if i < |cs| { ChainFacts(cs, ps, i); }
    ghost var behind := it.pos + RestOfChain(it);
    while chain != null
      invariant Segment(cs, ps, null) && PointsTo(cs, ps, Ptr(pos, chain, from), i)
      invariant it.pos <= pos <= |all| && forall k :: it.pos <= k < pos ==> all[k] != chr
      invariant i == i0 ==> chain == it.chain && from == it.posInChain && pos == it.pos
      invariant i != i0 ==> from == 0 && behind <= pos
      decreases |cs| - i
    {
      PtrKnown(cs, ps, Ptr(pos, chain, from), i);
      ChainFacts(cs, ps, i);
      assert forall b :: b in Buffers(cs) ==> allocated(b);
      var p := ScanChain(cs, ps, Ptr(pos, chain, from), chr, i);
      PtrMoves(cs, ps, Ptr(pos, chain, from), i, p);
      if from + p < chain.off {
        PtrKnown(cs, ps, Ptr(pos + p, chain, from + p), i);
        IsFirst(all, it.pos, pos + p, chr);
        return true, Ptr(pos + (from + p), chain, from + p);
      }
      pos := pos + chain.off - from;
      chain, from, i := chain.next, 0, i + 1;
    }
    PtrKnown(cs, ps, Ptr(pos, chain, from), i);
    IsFirst(all, it.pos, pos, chr);
    return false, Ptr(pos, chain, from);
  }

  lemma {:induction false} IsFirst(s: seq<Byte>, from: nat, q: nat, chr: Byte)
    requires from <= q <= |s| && (forall k :: from <= k < q ==> s[k] != chr) && (q < |s| ==> s[q] == chr)
    ensures FirstByte(s, from, chr) == q
    decreases q - from
  {
    if from < q { IsFirst(s, from + 1, q, chr); }
  }

  /** evbuffer_strspn: how many bytes from a position on are in a set. */
  method StrSpn(buf: Evbuffer, ptr: Ptr, chars: seq<Byte>, ghost i0: nat) returns (count: int)
    requires buf.Valid() && PointsTo(buf.chains, buf.pieces, ptr, i0)
    ensures buf.Valid() && 0 <= ptr.pos <= |buf.Content()|
    ensures count == if ptr.chain == null then -1 else Run(buf.Content(), ptr.pos, chars)
  {
    hide Flat, Chain.Holds, Segment, Distinct, Apart, PointsTo, AllIn, Run;
    ghost var cs, ps, all := buf.chains, buf.pieces, buf.Content();
    PtrKnown(cs, ps, ptr, i0);
    if ptr.chain == null { return -1; }
    NoneIn(all, ptr.pos, chars);
    count := 0;
    var chain, i: nat := ptr.chain, ptr.posInChain;
    ghost var at := i0;
    while true
      invariant Segment(cs, ps, null) && PointsTo(cs, ps, Ptr(ptr.pos + count, chain, i), at) && at < |cs|
      invariant 0 <= count && AllIn(all, ptr.pos, ptr.pos + count, chars)
      decreases |cs| - at
    {
      PtrKnown(cs, ps, Ptr(ptr.pos + count, chain, i), at);
      ChainFacts(cs, ps, at);
      while i < chain.off
        invariant PointsTo(cs, ps, Ptr(ptr.pos + count, chain, i), at) && i <= chain.off
        invariant 0 <= count && AllIn(all, ptr.pos, ptr.pos + count, chars)
      {
        ScannedByte(cs, ps, Ptr(ptr.pos + count, chain, i), at);
        RunGrows(all, ptr.pos, count, chars);
        if chain.buffer[chain.misalign + i] !in chars { return; }
        PtrMoves(cs, ps, Ptr(ptr.pos + count, chain, i), at, 1);
        count, i := count + 1, i + 1;
      }
      PtrMoves(cs, ps, Ptr(ptr.pos + count, chain, i), at, 0);
      PtrKnown(cs, ps, Ptr(ptr.pos + count, ChainAt(cs, at + 1), 0), at + 1);
      i := 0;
      RunEnds(all, ptr.pos, count, chars);
      if chain.next == null { return; }
      chain, at := chain.next, at + 1;
    }
  }

  ghost predicate AllIn(s: seq<Byte>, from: int, upTo: int, chars: seq<Byte>) {
    0 <= from <= upTo <= |s| && forall k :: from <= k < upTo ==> s[k] in chars
  }

  lemma NoneIn(s: seq<Byte>, from: nat, chars: seq<Byte>)
    requires from <= |s|
    ensures AllIn(s, from, from, chars)
  {
  }

  lemma RunGrows(s: seq<Byte>, from: nat, count: nat, chars: seq<Byte>)
    requires AllIn(s, from, from + count, chars) && from + count < |s|
    ensures if s[from + count] in chars then AllIn(s, from, from + count + 1, chars)
      else from <= |s| && Run(s, from, chars) == count
  {
  }

  lemma RunEnds(s: seq<Byte>, from: nat, count: nat, chars: seq<Byte>)
    requires AllIn(s, from, from + count, chars)
    ensures from + count == |s| ==> Run(s, from, chars) == count
  {
  }

  lemma ScannedByte(cs: seq<Chain>, ps: seq<seq<Byte>>, pos: Ptr, i: nat)
    requires Segment(cs, ps, null) && PointsTo(cs, ps, pos, i) && i < |cs| && pos.posInChain < |ps[i]|
    ensures pos.chain != null && pos.chain.misalign + pos.posInChain < pos.chain.buffer.Length
    ensures 0 <= pos.pos < |Flat(ps)| && Flat(ps)[pos.pos] == pos.chain.buffer[pos.chain.misalign + pos.posInChain]
  {
    hide Flat, Chain.Holds, Segment, Distinct, Apart;
    WalkFacts(cs, ps, i);
    ByteAt(ps, i, pos.posInChain);
    var chain := pos.chain;
    assert ps[i][pos.posInChain] == chain.buffer[chain.misalign..chain.misalign + chain.off][pos.posInChain];
  }

  /** enum evbuffer_ptr_how: from the start of the buffer, or from where the position is. */
  datatype PtrHow = FromStart | FromHere

  /** evbuffer_ptr_set with EVBUFFER_FromHere: there is a position as far on, or there is not. */
  method PtrSet(buf: Evbuffer, pos: Ptr, position: nat, how: PtrHow, ghost i0: nat)
      returns (ok: bool, r: Ptr, ghost i: nat)
    requires buf.Valid() && (how == FromHere ==> PointsTo(buf.chains, buf.pieces, pos, i0))
    ensures var to := if how == FromStart then position else pos.pos + position;
      && buf.Valid() && (ok <==> to < |buf.Content()|)
      && (ok ==> PointsTo(buf.chains, buf.pieces, r, i) && i < |buf.chains| && r.pos == to)
    ensures !ok ==> r.pos == -1 && r.chain == null
  {
    hide Flat, Chain.Holds, Segment, Distinct, Apart, PointsTo;
    ghost var cs, ps := buf.chains, buf.pieces;
    var left, chain, from: nat, start := position, buf.first, 0, 0;
    i := 0;
    FirstPoints(buf);
    if how == FromHere {
      chain, from, start, i := pos.chain, pos.posInChain, pos.pos, i0;
    }
    PtrKnown(cs, ps, Ptr(start, chain, from), i);
    while chain != null && from + left >= chain.off
      invariant Segment(cs, ps, null) && PointsTo(cs, ps, Ptr(start + position - left, chain, from), i)
      invariant 0 <= left <= position
      decreases |cs| - i
    {
      PtrKnown(cs, ps, Ptr(start + position - left, chain, from), i);
      ChainFacts(cs, ps, i);
      PtrMoves(cs, ps, Ptr(start + position - left, chain, from), i, 0);
      left := left - (chain.off - from);
      chain, from, i := chain.next, 0, i + 1;
    }
    PtrKnown(cs, ps, Ptr(start + position - left, chain, from), i);
    if chain != null {
      ChainFacts(cs, ps, i);
      PtrMoves(cs, ps, Ptr(start + position - left, chain, from), i, left);
      return true, Ptr(start + position, chain, from + left), i;
    }
    return false, NOWHERE, i;
  }

  lemma FirstPoints(buf: Evbuffer)
    requires buf.Valid()
    ensures Segment(buf.chains, buf.pieces, null) && PointsTo(buf.chains, buf.pieces, Ptr(0, buf.first, 0), 0)
  {
    SegmentLengths(buf.chains, buf.pieces, null);
    assert Flat(buf.pieces[..0]) == [];
  }

  /** The case of EVBUFFER_EOL_CRLF: line ends are passed over until one is a LF or starts a CR LF. */
  method FindCrlf(buf: Evbuffer, start: Ptr, ghost i0: nat) returns (ok: bool, it: Ptr, drain: nat)
    requires buf.Valid() && PointsTo(buf.chains, buf.pieces, start, i0)
    ensures buf.Valid()
      && (ok ==> PtrOk(buf.chains, buf.pieces, it) && FirstEol(buf.Content(), Crlf, start.pos, it.pos))
    ensures ok ==> 0 <= it.pos && drain == EolLength(buf.Content(), Crlf, it.pos)
    ensures !ok ==> drain == 0 && NoEol(buf.Content(), Crlf, start.pos)
  {
    hide Flat, Chain.Holds, Segment, Distinct, Apart, PointsTo, Free;
    ghost var cs, ps, all := buf.chains, buf.pieces, buf.Content();
    it, drain := start, 0;
    ghost var i := i0;
    while true
      invariant buf.Valid() && PointsTo(cs, ps, it, i) && start.pos <= it.pos
      invariant forall k {:trigger EolAt(all, Crlf, k)} :: start.pos <= k < it.pos ==> !EolAt(all, Crlf, k)
      decreases |all| - it.pos
    {
      ghost var from := it.pos;
      ok, it, i := FindEol(buf, it, i);
      FreeOfCrlf(all, from, if ok then it.pos else |all|);
      if !ok { return; }
      PtrKnown(cs, ps, it, i);
      ScannedByte(cs, ps, it, i);
      if it.chain.buffer[it.chain.misalign + it.posInChain] == LF {
        return true, it, 1;
      }
      var r := PtrMemcmp(buf, it, [CR, LF], i);
      if r == 0 {
        return true, it, 2;
      }
      ok, it, i := PtrSet(buf, it, 1, FromHere, i);
      if !ok { return; }
    }
  }

  lemma FreeOfCrlf(s: seq<Byte>, a: int, b: int)
    requires Free(s, a, b) && 0 <= a
    ensures forall k {:trigger EolAt(s, Crlf, k)} :: a <= k < b ==> !EolAt(s, Crlf, k)
    ensures b == |s| ==> NoEol(s, Crlf, b)
  {
    StartsWithFirst(s, [CR, LF]);
  }

  /** Whether evbuffer_search_eol reports where the terminator is: for a single LF only from the first byte
      of a chain, or when there is no LF in the rest of the chain. */
  ghost predicate ReportedWell(s: seq<Byte>, style: Style, from: Ptr)
    reads from.chain
  {
    style != LfOnly || from.posInChain == 0 || Lacks(s, from.pos, from.pos + RestOfChain(from), LF)
  }

  /** evbuffer_search_eol: the first terminator of the style from the start, and its length. */
  method SearchEol(buf: Evbuffer, start: MaybePtr, style: Style) returns (it: Ptr, drain: nat)
    requires buf.Valid() && (start.Given? ==> PtrOk(buf.chains, buf.pieces, start.ptr))
    ensures buf.Valid()
    ensures var from := if start.Given? then start.ptr else Ptr(0, buf.first, 0);
      var q := if style == LfOnly then FirstByte(buf.Content(), from.pos, LF) else it.pos;
      if it.pos >= 0 then
        FirstEol(buf.Content(), style, from.pos, q) && drain == EolLength(buf.Content(), style, q)
      else
        it.pos == -1 && drain == 0 && NoEol(buf.Content(), style, from.pos)
    ensures var from := if start.Given? then start.ptr else Ptr(0, buf.first, 0);
      it.pos >= 0 ==> (FirstEol(buf.Content(), style, from.pos, it.pos) <==> ReportedWell(buf.Content(), style, from))
  {
    hide Flat, Chain.Holds, Segment, Distinct, Apart, PointsTo, Free, Occurs, NoneBefore;
    ghost var cs, ps, all := buf.chains, buf.pieces, buf.Content();
    PtrAtStart(buf);
    it := if start.Given? then start.ptr else Ptr(0, buf.first, 0);
    ghost var from := it;
    ghost var i: nat :| PointsTo(cs, ps, it, i);
    PtrKnown(cs, ps, it, i);
    drain := 0;
    match style
    case AnyEol =>
      var ok, r, j := FindEol(buf, it, i);
      FreeOfAny(all, from.pos, if ok then r.pos else |all|);
      if !ok { return NOWHERE, 0; }
      PtrKnown(cs, ps, r, j);
      var count := StrSpn(buf, r, [CR, LF], j);
      return r, count;
    case CrlfStrict =>
      var r := SearchRange(buf, [CR, LF], Given(it), NoPtr);
      StrictIsSearch(all, from.pos, r.pos);
      if r.pos < 0 { return NOWHERE, 0; }
      return r, 2;
    case Crlf =>
      var ok, r, d := FindCrlf(buf, it, i);
      if !ok { return NOWHERE, 0; }
      return r, d;
    case LfOnly =>
      var ok, r := Strchr(buf, it, LF, i);
      if !ok { return NOWHERE, 0; }
      StrchrRight(all, from.pos, RestOfChain(from), from.posInChain, LF);
      FirstIsEol(all, from.pos, r.pos);
      return r, 1;
  }

  /** The first LF is the first terminator of its style, and no other position is. */
  lemma FirstIsEol(s: seq<Byte>, from: nat, r: int)
    requires FirstByte(s, from, LF) < |s|
    ensures FirstEol(s, LfOnly, from, FirstByte(s, from, LF))
    ensures FirstEol(s, LfOnly, from, r) <==> r == FirstByte(s, from, LF)
  {
    var q := FirstByte(s, from, LF);
    assert EolAt(s, LfOnly, q);
  }

  lemma FreeOfAny(s: seq<Byte>, a: int, b: int)
    requires Free(s, a, b) && 0 <= a
    ensures forall k {:trigger EolAt(s, AnyEol, k)} :: a <= k < b ==> !EolAt(s, AnyEol, k)
    ensures b == |s| ==> NoEol(s, AnyEol, a)
  {
  }

  lemma StrictIsSearch(s: seq<Byte>, from: int, r: int)
    requires Answers(s, from, [CR, LF], NoPtr, r) && 0 <= from
    ensures if r >= 0 then FirstEol(s, CrlfStrict, from, r) else NoEol(s, CrlfStrict, from)
  {
    StartsWithFirst(s, [CR, LF]);
    forall k | from <= k && (r < 0 || k < r) ensures !EolAt(s, CrlfStrict, k) {
      assert !Occurs(s, k, [CR, LF]);
    }
  }

  /** evbuffer_readln: the line before the first terminator comes back with a zero behind it, the
      terminator goes, and the rest stays. */
  method Readln(buf: Evbuffer, style: Style) returns (line: array?<Byte>, nRead: nat)
    requires buf.Valid()
    modifies buf`first, buf`last, buf`lastWithDatap, buf`totalLen, buf`chains, buf`pieces, buf.chains
    ensures buf.Valid()
    ensures line == null <==> buf.freezeStart || NoEol(old(buf.Content()), style, 0)
    ensures line == null ==> nRead == 0 && buf.Content() == old(buf.Content())
    ensures line != null ==> fresh(line) && FirstEol(old(buf.Content()), style, 0, nRead) && line.Length == nRead + 1
    ensures line != null ==> line[..nRead] == old(buf.Content())[..nRead] && line[nRead] == 0
    ensures line != null ==> buf.Content() == old(buf.Content())[nRead + EolLength(old(buf.Content()), style, nRead)..]
    ensures old(NoneEmpty(buf.pieces)) ==> NoneEmpty(buf.pieces)
    ensures Suffix(buf.chains, old(buf.chains))
  {
    hide Flat, Chain.Holds, Segment, Distinct, Apart, PointsTo, Evbuffer.Valid, Evbuffer.Content, NoneEmpty;
    if buf.freezeStart { return null, 0; }
    var it, drain;
    it, drain := SearchEol(buf, NoPtr, style);
    if it.pos < 0 { return null, 0; }
    line := TakeLine(buf, it.pos, drain);
    return line, it.pos;
  }

  /** The end of evbuffer_readln: a line is removed into new memory, and its terminator drained. */
  method TakeLine(buf: Evbuffer, toCopy: nat, drain: nat) returns (text: array<Byte>)
    requires buf.Valid() && !buf.freezeStart && toCopy + drain <= |buf.Content()|
    modifies buf`first, buf`last, buf`lastWithDatap, buf`totalLen, buf`chains, buf`pieces, buf.chains
    ensures buf.Valid() && fresh(text) && text.Length == toCopy + 1
    ensures toCopy <= |old(buf.Content())| && text[..toCopy] == old(buf.Content())[..toCopy] && text[toCopy] == 0
    ensures toCopy + drain <= |old(buf.Content())| && buf.Content() == old(buf.Content())[toCopy + drain..]
    ensures old(NoneEmpty(buf.pieces)) ==> NoneEmpty(buf.pieces)
    ensures Suffix(buf.chains, old(buf.chains))
  {
    hide Flat, Chain.Holds, Segment, Distinct, Apart, Evbuffer.Valid, Evbuffer.Content, NoneEmpty;
    ghost var all, cs := buf.Content(), buf.chains;
    ContentLength(buf);
    assert forall b :: b in Buffers(buf.chains) ==> allocated(b);
    text := new Byte[toCopy + 1];
    var removed := Remove(buf, text, toCopy);
    ghost var rest := buf.Content();
    SplitBytes(text[..toCopy], rest, all);
    ContentLength(buf);
    BuffersOfPart(cs, |cs| - |buf.chains|);
    MemoryApart(buf.chains, text);
    text[toCopy] := 0;
    SplitBytes(all[..toCopy], rest, all);
    assert buf.Content() == rest;
    assert text[..toCopy] == all[..toCopy];
    var drained := Drain(buf, drain);
    assert rest[drain..] == all[toCopy + drain..];
  }
}
