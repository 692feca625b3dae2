/** enet_range_coder_compress and enet_range_coder_decompress, proved against the streams of
    PpmModel, and with that their round trip. */
module Compressor {
  import opened Octets
  import opened RangeCoder
  import opened Frequencies
  import opened PpmModel
  import opened RoundTrip
  import opened RangeStreams
  import opened ArenaShape
  import opened ArenaForest
  import opened ArenaHalving
  import opened ArenaSearch
  import opened ArenaTwigs
  import opened ArenaGrowth
  import opened ArenaDescent
  import opened ArenaLevels
  import opened ArenaParents
  import opened ContextWalk
  import opened Arena

  /** What the encoder still has to write for the byte v from context depth `depth` on, given that
      it began with coder c0 and output out0. */
  ghost predicate Writing(m: Model, v: Byte, depth: nat, c0: Coder, out0: seq<Byte>, c: Coder, out: seq<Byte>)
    requires WalkOk(m) && depth <= |m.history|
  {
    && Normal(c0) && Normal(c)
    && var n0 := EncodeAll(c0, SlotsFrom(m.tables, m.history, 0, v));
       var n := EncodeAll(c, SlotsFrom(m.tables, m.history, depth, v));
       n0.coder == n.coder && out0 + n0.bytes == out + n.bytes
  }

  /** All of it is written. */
  ghost predicate Written(m: Model, v: Byte, c0: Coder, out0: seq<Byte>, c: Coder, out: seq<Byte>)
    requires WalkOk(m)
  {
    && Normal(c0)
    && var n0 := EncodeAll(c0, SlotsFrom(m.tables, m.history, 0, v));
       c == n0.coder && out == out0 + n0.bytes
  }

  ghost function SizeWith(m: Model, v: Byte, c0: Coder, out0: seq<Byte>): nat
    requires WalkOk(m) && Normal(c0)
  {
    |out0| + |EncodeAll(c0, SlotsFrom(m.tables, m.history, 0, v)).bytes|
  }

  /** Writing the slot of v ends the byte; running out of room there means the whole did not fit. */
  lemma WritesSymbol(m: Model, v: Byte, depth: nat, c0: Coder, out0: seq<Byte>, c: Coder, out: seq<Byte>, s: Slot)
    requires WalkOk(m) && depth <= |m.history| && Writing(m, v, depth, c0, out0, c, out)
    requires depth == |m.history| || Seen(m.tables, m.history[depth..], v)
    requires s == SlotOf(TableAt(m.tables, m.history[depth..]), ParamsOf(m.history[depth..]), v)
    ensures Fits(s) && Normal(c)
    ensures var n := Encode(c, s); Written(m, v, c0, out0, n.coder, out + n.bytes)
    ensures |out| + |Encode(c, s).bytes| <= SizeWith(m, v, c0, out0)
  {
    hide Encode, Normal, TableOk, Fits;
    SlotsAhead(m, v, depth);
    SingleSlot(c, s);
  }

  lemma WritesEscape(m: Model, v: Byte, depth: nat, c0: Coder, out0: seq<Byte>, c: Coder, out: seq<Byte>, s: Slot)
    requires WalkOk(m) && depth < |m.history| && Writing(m, v, depth, c0, out0, c, out)
    requires !Seen(m.tables, m.history[depth..], v)
    requires var t := TableAt(m.tables, m.history[depth..]); var p := ParamsOf(m.history[depth..]);
      |t.counts| == VALUES && CanEscape(t, p) && s == EscapeSlot(t, p)
    ensures Fits(s) && Normal(c)
    ensures var n := Encode(c, s); Writing(m, v, depth + 1, c0, out0, n.coder, out + n.bytes)
    ensures |out| + |Encode(c, s).bytes| <= SizeWith(m, v, c0, out0)
  {
    hide Encode, Normal, TableOk, Fits, Total, SlotsFrom;
    SlotsAhead(m, v, depth);
    var rest := SlotsFrom(m.tables, m.history, depth + 1, v);
    EncodeAllCons(c, s, rest);
    var first := Encode(c, s);
    var after := EncodeAll(first.coder, rest);
    assert out + (first.bytes + after.bytes) == out + first.bytes + after.bytes;
  }

  lemma WritesNothing(m: Model, v: Byte, depth: nat, c0: Coder, out0: seq<Byte>, c: Coder, out: seq<Byte>)
    requires WalkOk(m) && depth < |m.history| && Writing(m, v, depth, c0, out0, c, out)
    requires !Seen(m.tables, m.history[depth..], v)
    requires var t := TableAt(m.tables, m.history[depth..]);
      |t.counts| == VALUES && !CanEscape(t, ParamsOf(m.history[depth..]))
    ensures Writing(m, v, depth + 1, c0, out0, c, out)
  {
    hide Encode, Normal, TableOk, Fits, Total;
    SlotsAhead(m, v, depth);
  }

  /** The tree half of a step: count the byte in the context and link the symbol to the one before. */
  method CountByte(arena: ContextArena, context: nat, open: nat, value: Byte, p: Params,
                   ghost m: Model, ghost depth: nat, ghost steps: nat, ghost exact: bool)
      returns (symbol: nat, under: nat, count: nat)
    requires arena.Sound() && context < |arena.places| < ARENA_SIZE && p == ParamsOf(arena.places[context].path)
    requires Leveled(arena.symbols[..], arena.places, open)
    requires open == 0 ||
      (IsNode(arena.places, open) && |arena.places[open].path| == |arena.places[context].path| + 2)
    requires exact ==>
      Walking(arena.symbols[..], arena.places, m, value, depth, context, open, steps) && depth < steps
    modifies arena, arena.symbols
    ensures arena.nextSymbol == |arena.places| <= ARENA_SIZE == arena.symbols.Length && 0 < symbol
    ensures Due(arena.symbols[..], arena.places, arena.trees, context, symbol, count, p)
    ensures old(arena.places) <= arena.places && |arena.places| <= |old(arena.places)| + 1
    ensures forall i :: 0 <= i < |old(arena.places)| && (i != open || i == 0) ==>
      arena.symbols[i].parent == old(arena.symbols[i].parent)
    ensures exact ==>
      && WalkOk(m) && depth <= |m.history|
      && Counting(arena.symbols[..], arena.places, m, value, depth, context, symbol)
    ensures exact ==> var t := TableAt(m.tables, m.history[depth..]);
      && TableOk(t, p)
      && under == Before(t, p, value) && count == t.counts[value] + p.minimum
      && arena.symbols[context].escapes == t.escapes && arena.symbols[context].total == Total(t, p)
  {
    hide Walking, Linked, Visited, Counted, LearnChain, Open, HeaderOk, TableOk, Total, Before, Mass, Seen, Grown, Sown,
      Due, Leveled;
    ghost var s0, ps0 := arena.symbols[..], arena.places;
    ghost var ts := if exact then LearnsBefore(s0, ps0, m, value, depth, context, open, steps) else map[];
    if exact { StepFacts(s0, ps0, m, value, depth, context, open, steps); }
    symbol, under, count := arena.ContextEncode(context, value, p, ts, exact);
    ghost var s1, ps := arena.symbols[..], arena.places;
    VisitsFacts(s0, s1, ps0, ps, arena.trees, ts, context, value, symbol, exact);
    if open != 0 {
      arena.SetParent(open, symbol);
    }
    BecomesDue(s0, s1, arena.symbols[..], ps0, ps, arena.trees, context, symbol, open, count, p);
    if exact {
      WalkVisited(s0, s1, arena.symbols[..], ps0, ps, m, value, depth, context, open, symbol, steps);
      CountedHeader(arena.symbols[..], ps, m, value, depth, context);
    }
  }

  /** The tables a step of the walk finds. */
  ghost function LearnsBefore(s: seq<Symbol>, ps: seq<Place>, m: Model, v: Byte, depth: nat, context: nat, open: nat,
                              steps: nat): Tables
    requires Walking(s, ps, m, v, depth, context, open, steps)
  {
    LearnChain(m.tables, m.history, depth, v)
  }

  lemma VisitsFacts(s0: seq<Symbol>, s: seq<Symbol>, ps0: seq<Place>, ps: seq<Place>, trees: seq<Twig>, ts: Tables,
                    c: nat, v: Byte, symbol: nat, exact: bool)
    requires Visits(s0, s, ps0, ps, trees, ts, c, v, symbol, exact)
    ensures c < |ps0| <= |s0| == |s| && ps0 <= ps && |ps| <= |ps0| + 1
    ensures Sown(s0, s, ps0, ps, trees, c, symbol, ParamsOf(ps0[c].path).delta)
    ensures exact ==> Visited(s0, s, ps0, ps, ts, c, v, symbol)
  {
    hide Grown;
  }

  /** The totals half of a step. */
  method FinishByte(arena: ContextArena, context: nat, count: nat, value: Byte, p: Params,
                    ghost symbol: nat, ghost m: Model, ghost depth: nat, ghost steps: nat, ghost exact: bool)
    requires arena.nextSymbol == |arena.places| && arena.symbols.Length == ARENA_SIZE
    requires Due(arena.symbols[..], arena.places, arena.trees, context, symbol, count, p)
    requires exact ==>
      && WalkOk(m) && depth < steps <= |m.history| + 1 && depth <= |m.history| && m.used + steps <= ARENA_SIZE
      && Counting(arena.symbols[..], arena.places, m, value, depth, context, symbol)
      && var t := TableAt(m.tables, m.history[depth..]); |t.counts| == VALUES && count == t.counts[value] + p.minimum
    modifies arena.symbols
    ensures arena.Sound() && Leveled(arena.symbols[..], arena.places, symbol)
    ensures forall i :: 0 <= i < ARENA_SIZE ==> arena.symbols[i].parent == old(arena.symbols[i].parent)
    ensures context < arena.symbols.Length
    ensures old(Leveled(arena.symbols[..], arena.places, 0)) ==> Leveled(arena.symbols[..], arena.places, 0)
    ensures exact ==>
      && Walked(arena.symbols[..], arena.places, m, value, depth, symbol)
      && Linked(arena.symbols[..], arena.places, symbol)
      && (Seen(m.tables, m.history[depth..], value) || depth == |m.history| ==>
            Linked(arena.symbols[..], arena.places, 0))
      && (depth < |m.history| ==>
            Walking(arena.symbols[..], arena.places, m, value, depth + 1, arena.symbols[context].parent, symbol, steps))
  {
    hide Walking, Walked, Linked, Counted, LearnChain, TableOk, Total, Mass, Seen, Learn, Due, Grown, Leveled;
    ghost var s2, ps := arena.symbols[..], arena.places;
    ghost var ts := if exact then LearnChain(m.tables, m.history, depth, value) else map[];
    DueFacts(s2, ps, arena.trees, context, symbol, count, p);
    if exact { CountingReinforced(s2, ps, m, value, depth, context, symbol); }
    arena.Reinforce(context, count, p, symbol, ts, value, exact);
    LeveledKept(s2, arena.symbols[..], ps, symbol);
    if Leveled(s2, ps, 0) { LeveledKept(s2, arena.symbols[..], ps, 0); }
    if exact { WalkNext(s2, arena.symbols[..], ps, m, value, depth, context, symbol, steps); }
  }

  lemma CountingReinforced(s: seq<Symbol>, ps: seq<Place>, m: Model, v: Byte, depth: nat, context: nat, symbol: nat)
    requires WalkOk(m) && depth <= |m.history| && Counting(s, ps, m, v, depth, context, symbol)
    ensures Counted(s, ps, LearnChain(m.tables, m.history, depth, v), context, v)
    ensures context < |ps| <= |s| && ps[context].path == m.history[depth..] && Linked(s, ps, symbol)
    ensures TableAt(LearnChain(m.tables, m.history, depth, v), m.history[depth..]) ==
      TableAt(m.tables, m.history[depth..])
  {
    hide LearnChain, Counted, Linked;
    NotLearnedYet(m, v, depth);
    CountedFacts(s, ps, LearnChain(m.tables, m.history, depth, v), context, v);
  }

  /** The output half of an encoder's step: the byte's slot, or an escape, or nothing where the
      context has nothing to escape from. */
  method WriteByte(encoder: RangeEncoder, under: nat, count: nat, escapes: nat, total: nat, ghost value: Byte,
                   ghost m: Model, ghost depth: nat, ghost c0: Coder, ghost out0: seq<Byte>)
      returns (ok: bool)
    requires WalkOk(m) && depth <= |m.history| && encoder.Ready()
    requires Writing(m, value, depth, c0, out0, Coder(encoder.low, encoder.range), encoder.outData[..encoder.size])
    requires var t, p := TableAt(m.tables, m.history[depth..]), ParamsOf(m.history[depth..]);
      && TableOk(t, p) && escapes == t.escapes && total == Total(t, p)
      && under == Before(t, p, value) && count == t.counts[value] + p.minimum
    modifies encoder, encoder.outData
    ensures encoder.size <= encoder.outData.Length && Normal(c0)
    ensures count > 0 <==> depth == |m.history| || Seen(m.tables, m.history[depth..], value)
    ensures !ok ==> encoder.outData.Length < SizeWith(m, value, c0, out0)
    ensures ok && count > 0 ==>
      Written(m, value, c0, out0, Coder(encoder.low, encoder.range), encoder.outData[..encoder.size])
    ensures ok && count == 0 ==> encoder.Ready() && depth < |m.history|
    ensures ok && count == 0 ==>
      Writing(m, value, depth + 1, c0, out0, Coder(encoder.low, encoder.range), encoder.outData[..encoder.size])
  {
    hide Written, TableOk, Total, Before, Mass, RangeCoder.Encode, SlotsFrom, EncodeAll, SizeWith;
    ghost var c, out := Coder(encoder.low, encoder.range), encoder.outData[..encoder.size];
    WritingNormal(m, value, depth, c0, out0, c, out);
    TotalBounds(TableAt(m.tables, m.history[depth..]), ParamsOf(m.history[depth..]));
    hide Normal, Writing;
    if count > 0 {
      WritesSymbol(m, value, depth, c0, out0, c, out, Slot(escapes + under, count, total));
      ok := encoder.Encode(Slot(escapes + under, count, total));
    } else if 0 < escapes < total {
      WritesEscape(m, value, depth, c0, out0, c, out, Slot(0, escapes, total));
      ok := encoder.Encode(Slot(0, escapes, total));
    } else {
      WritesNothing(m, value, depth, c0, out0, c, out);
      ok := true;
    }
  }

  lemma WritingNormal(m: Model, v: Byte, depth: nat, c0: Coder, out0: seq<Byte>, c: Coder, out: seq<Byte>)
    requires WalkOk(m) && depth <= |m.history| && Writing(m, v, depth, c0, out0, c, out)
    ensures Normal(c0) && Normal(c)
    ensures depth == |m.history| ==> m.history[depth..] == [] && ParamsOf(m.history[depth..]) == ROOT
    ensures depth < |m.history| ==> ParamsOf(m.history[depth..]) == SUBCONTEXT
  {
  }

  /** After one step of the encoder: either the byte is done, or the walk goes on at the parent. */
  ghost predicate Stepped(m: Model, v: Byte, depth: nat, c0: Coder, out0: seq<Byte>, c: Coder, out: seq<Byte>,
                          s: seq<Symbol>, ps: seq<Place>, context: nat, symbol: nat, done: bool, steps: nat)
    requires WalkOk(m) && depth <= |m.history| && context < |s|
  {
    && symbol < |ps| && ps[symbol].path == m.history[depth..] + [v]
    && if done then
         Written(m, v, c0, out0, c, out) && Walked(s, ps, m, v, depth, symbol) && Linked(s, ps, 0)
       else
         && depth < |m.history| && Normal(c) && Writing(m, v, depth + 1, c0, out0, c, out)
         && Walking(s, ps, m, v, depth + 1, s[context].parent, symbol, steps)
  }

  /** One step of the encoder in one context: the tree, the output, the totals. */
  method EncodeInContext(arena: ContextArena, encoder: RangeEncoder, context: nat, open: nat, value: Byte, p: Params,
                         ghost m: Model, ghost depth: nat, ghost c0: Coder, ghost out0: seq<Byte>)
      returns (ok: bool, symbol: nat, count: nat)
    requires arena.Sound()
    requires Walking(arena.symbols[..], arena.places, m, value, depth, context, open, |m.history| + 1)
    requires depth <= |m.history| && p == ParamsOf(m.history[depth..])
    requires encoder.Ready() && encoder.outData as object != arena.symbols
    requires Writing(m, value, depth, c0, out0, Coder(encoder.low, encoder.range), encoder.outData[..encoder.size])
    modifies arena, arena.symbols, encoder, encoder.outData
    ensures encoder.size <= encoder.outData.Length && WalkOk(m) && depth <= |m.history| && Normal(c0)
    ensures ok ==> arena.Sound()
    ensures context < |arena.symbols[..]|
    ensures old(arena.places) <= arena.places && 0 < symbol
    ensures count > 0 <==> depth == |m.history| || Seen(m.tables, m.history[depth..], value)
    ensures if ok
      then Stepped(m, value, depth, c0, out0, Coder(encoder.low, encoder.range), encoder.outData[..encoder.size],
                   arena.symbols[..], arena.places, context, symbol, count > 0, |m.history| + 1)
      else encoder.outData.Length < SizeWith(m, value, c0, out0)
  {
    hide Walking, Walked, Linked, Counting, Writing, Written, SizeWith, TableOk, Total, Before, Mass, Normal, Seen,
      Grown, Due, Leveled;
    var under: nat;
    WalkingRoom(arena.symbols[..], arena.places, m, value, depth, context, open, |m.history| + 1);
    WalkLevels(arena.symbols[..], arena.places, m, value, depth, context, open, |m.history| + 1);
    symbol, under, count := CountByte(arena, context, open, value, p, m, depth, |m.history| + 1, true);
    DueFacts(arena.symbols[..], arena.places, arena.trees, context, symbol, count, p);
    SymbolPath(arena.symbols[..], arena.places, m, value, depth, context, symbol);
    ok := WriteByte(encoder, under, count, arena.symbols[context].escapes, arena.symbols[context].total,
                    value, m, depth, c0, out0);
    if !ok { return; }
    TotalBounds(TableAt(m.tables, m.history[depth..]), p);
    FinishByte(arena, context, count, value, p, symbol, m, depth, |m.history| + 1, true);
  }

  /** The encoder's work on one byte: the loop over the contexts from the longest on, up to the
      first that had seen the byte, and the root if none had. */
  method EncodeByte(arena: ContextArena, encoder: RangeEncoder, predicted: nat, value: Byte, ghost m: Model)
      returns (ok: bool, deepest: nat)
    requires arena.Sound() && Held(arena.symbols[..], arena.places, m, predicted)
    requires encoder.Ready() && encoder.outData as object != arena.symbols
    modifies arena, arena.symbols, encoder, encoder.outData
    ensures encoder.size <= encoder.outData.Length && (ok ==> arena.Sound())
    ensures var c0, out0 := old(Coder(encoder.low, encoder.range)), old(encoder.outData[..encoder.size]);
      if ok
      then Coded(arena.symbols[..], arena.places, m, value, Holder(m.tables, m.history, 0, value), deepest) &&
           Written(m, value, c0, out0, Coder(encoder.low, encoder.range), encoder.outData[..encoder.size])
      else encoder.outData.Length < SizeWith(m, value, c0, out0)
  {
    hide Walking, Walked, Linked, Writing, Written, SizeWith, Stepped, Normal, Seen, Holder, Coded, Open, TableOk,
      TableAt, LearnChain, SlotsFrom, Grown;
    ghost var c0, out0 := Coder(encoder.low, encoder.range), encoder.outData[..encoder.size];
    WalkBegins(arena.symbols[..], arena.places, m, value, predicted);
    WritingBegins(m, value, c0, out0);
    var context: nat, open: nat := predicted, 0;
    ghost var depth: nat := 0;
    deepest := 0;
    while true
      invariant arena.Sound() && depth <= |m.history|
      invariant Walking(arena.symbols[..], arena.places, m, value, depth, context, open, |m.history| + 1)
      invariant encoder.Ready()
      invariant Writing(m, value, depth, c0, out0, Coder(encoder.low, encoder.range), encoder.outData[..encoder.size])
      invariant Holder(m.tables, m.history, 0, value) == Holder(m.tables, m.history, depth, value)
      invariant depth > 0 ==> deepest < |arena.places| && arena.places[deepest].path == m.history + [value]
      decreases |m.history| - depth
    {
      StepFacts(arena.symbols[..], arena.places, m, value, depth, context, open, |m.history| + 1);
      HolderStep(m, value, depth);
      var p := if context != 0 then SUBCONTEXT else ROOT;
      var symbol, count;
      ok, symbol, count := EncodeInContext(arena, encoder, context, open, value, p, m, depth, c0, out0);
      if !ok { return; }
      SteppedFacts(m, value, depth, c0, out0, Coder(encoder.low, encoder.range), encoder.outData[..encoder.size],
                   arena.symbols[..], arena.places, context, symbol, count > 0, |m.history| + 1);
      if open == 0 { deepest := symbol; }
      if count > 0 {
        CodedAtLast(arena.symbols[..], arena.places, m, value, depth, symbol, deepest);
        return;
      }
      open := symbol;
      context := arena.symbols[context].parent;
      depth := depth + 1;
    }
  }

  lemma SteppedFacts(m: Model, v: Byte, depth: nat, c0: Coder, out0: seq<Byte>, c: Coder, out: seq<Byte>,
                     s: seq<Symbol>, ps: seq<Place>, context: nat, symbol: nat, done: bool, steps: nat)
    requires WalkOk(m) && depth <= |m.history| && context < |s|
    requires Stepped(m, v, depth, c0, out0, c, out, s, ps, context, symbol, done, steps)
    ensures symbol < |ps| && ps[symbol].path == m.history[depth..] + [v]
    ensures done ==> Written(m, v, c0, out0, c, out) && Walked(s, ps, m, v, depth, symbol) && Linked(s, ps, 0)
    ensures !done ==>
      && depth < |m.history| && Normal(c) && Writing(m, v, depth + 1, c0, out0, c, out)
      && Walking(s, ps, m, v, depth + 1, s[context].parent, symbol, steps)
  {
  }

  lemma CodedAtLast(s: seq<Symbol>, ps: seq<Place>, m: Model, v: Byte, depth: nat, symbol: nat, deepest: nat)
    requires WalkOk(m) && depth <= |m.history| && Walked(s, ps, m, v, depth, symbol) && Linked(s, ps, 0)
    requires deepest < |ps| && ps[deepest].path == m.history + [v]
    ensures Coded(s, ps, m, v, depth, deepest)
  {
    hide LearnChain, Forest, Headers, Known;
    assert ps[0] == ROOT_PLACE;
  }

  lemma WalkingRoom(s: seq<Symbol>, ps: seq<Place>, m: Model, v: Byte, depth: nat, context: nat, open: nat, steps: nat)
    requires Walking(s, ps, m, v, depth, context, open, steps)
    ensures WalkOk(m) && depth <= |m.history| && depth <= steps <= |m.history| + 1 && m.used + steps <= ARENA_SIZE
  {
  }

  lemma SymbolPath(s: seq<Symbol>, ps: seq<Place>, m: Model, v: Byte, depth: nat, context: nat, symbol: nat)
    requires WalkOk(m) && depth <= |m.history| && Counting(s, ps, m, v, depth, context, symbol)
    ensures symbol < |ps| && ps[symbol].path == m.history[depth..] + [v]
  {
  }

  /** One byte is in the model: `deepest` stands for the longest string that ends with it. */
  ghost predicate Coded(s: seq<Symbol>, ps: seq<Place>, m: Model, v: Byte, depth: nat, deepest: nat) {
    && WalkOk(m) && depth <= |m.history|
    && ArenaOk(s, ps, LearnChain(m.tables, m.history, depth + 1, v))
    && |s| == ARENA_SIZE && |ps| == m.used + PpmModel.Created(m.tables, m.history, depth + 1, v)
    && Linked(s, ps, 0)
    && IsNode(ps, deepest) && ps[deepest].path == m.history + [v]
  }

  lemma WritingBegins(m: Model, v: Byte, c0: Coder, out0: seq<Byte>)
    requires WalkOk(m) && Normal(c0)
    ensures Writing(m, v, 0, c0, out0, c0, out0)
  {
  }

  lemma HolderStep(m: Model, v: Byte, depth: nat)
    requires WalkOk(m) && depth <= |m.history|
    ensures depth == |m.history| || Seen(m.tables, m.history[depth..], v) ==>
      Holder(m.tables, m.history, depth, v) == depth
    ensures depth < |m.history| && !Seen(m.tables, m.history[depth..], v) ==>
      Holder(m.tables, m.history, depth, v) == Holder(m.tables, m.history, depth + 1, v)
  {
  }

  lemma CodedFacts(s: seq<Symbol>, ps: seq<Place>, m: Model, v: Byte, depth: nat, deepest: nat)
    requires Coded(s, ps, m, v, depth, deepest)
    ensures WalkOk(m) && depth <= |m.history| && |s| == ARENA_SIZE && 0 < deepest < |ps| <= |s|
    ensures |ps| == m.used + PpmModel.Created(m.tables, m.history, depth + 1, v)
    ensures s[deepest].parent < |ps| && ps[s[deepest].parent].path == (m.history + [v])[1..]
  {
    hide LearnChain, Forest, Headers, Known;
    assert ParentOk(s, ps, deepest);
  }

  lemma CodedLevels(s: seq<Symbol>, ps: seq<Place>, m: Model, v: Byte, depth: nat, deepest: nat)
    requires ModelOk(m) && Coded(s, ps, m, v, depth, deepest)
    ensures Leveled(s, ps, 0) && IsNode(ps, deepest) && |ps[deepest].path| == |m.history| + 1 <= ORDER + 1
  {
    hide LearnChain, ArenaOk, Linked, Leveled;
    ArenaPlaced(s, ps, LearnChain(m.tables, m.history, depth + 1, v));
    LinkedIsLeveled(s, ps, 0);
  }

  /** A byte in the model and the context moved on: the arena holds the advanced model. */
  lemma CodedAdvances(s: seq<Symbol>, ps: seq<Place>, m: Model, v: Byte, depth: nat, deepest: nat, predicted: nat)
    requires ModelOk(m) && Coded(s, ps, m, v, depth, deepest) && |ps| < ARENA_SIZE - ORDER
    requires predicted < |ps| && ps[predicted].path == Recent(m.history + [v])
    ensures depth <= |m.history| && Held(s, ps, Advance(m, depth, v), predicted)
  {
    hide LearnChain, ArenaOk, Linked;
  }

  /** How the model moves on: it starts again where the arena may not have room for another byte. */
  lemma AdvanceShape(s: seq<Symbol>, ps: seq<Place>, m: Model, v: Byte, depth: nat, deepest: nat)
    requires ModelOk(m) && Coded(s, ps, m, v, depth, deepest)
    ensures depth <= |m.history|
    ensures |ps| >= ARENA_SIZE - ORDER ==> Advance(m, depth, v) == INITIAL
    ensures |ps| < ARENA_SIZE - ORDER ==> Advance(m, depth, v).history == Recent(m.history + [v])
    ensures Recent(m.history + [v]) == if |m.history| >= ORDER then (m.history + [v])[1..] else m.history + [v]
  {
    hide Coded, LearnChain, Advance, ModelOk, Recent;
    CodedFacts(s, ps, m, v, depth, deepest);
    AdvanceByRoom(m, depth, v);
    RecentShape(m, v);
  }

  lemma AdvanceByRoom(m: Model, depth: nat, v: Byte)
    requires ModelOk(m) && depth <= |m.history|
    ensures TablesOk(m.tables)
    ensures var used := m.used + PpmModel.Created(m.tables, m.history, depth + 1, v);
      if used >= ARENA_SIZE - ORDER then Advance(m, depth, v) == INITIAL
      else Advance(m, depth, v).history == Recent(m.history + [v])
  {
    hide LearnChain;
  }

  lemma RecentShape(m: Model, v: Byte)
    requires ModelOk(m)
    ensures Recent(m.history + [v]) == if |m.history| >= ORDER then (m.history + [v])[1..] else m.history + [v]
  {
  }

  /** After each byte: the next context to try, one byte shorter once the order is reached, and a
      fresh start when the arena may not have room for another byte. */
  method NextContext(arena: ContextArena, deepest: nat, order: nat, ghost m: Model, ghost depth: nat, ghost v: Byte,
                     ghost exact: bool)
      returns (predicted: nat, order': nat)
    requires arena.Sound() && Leveled(arena.symbols[..], arena.places, 0) && order <= ORDER
    requires IsNode(arena.places, deepest) && |arena.places[deepest].path| == order + 1
    requires exact ==>
      ModelOk(m) && order == |m.history| && Coded(arena.symbols[..], arena.places, m, v, depth, deepest)
    modifies arena, arena.symbols
    ensures arena.Sound() && Predicts(arena.symbols[..], arena.places, predicted, order')
    ensures exact ==>
      && depth <= |m.history|
      && var m' := Advance(m, depth, v);
         Held(arena.symbols[..], arena.places, m', predicted) && order' == |m'.history|
  {
    hide Coded, LearnChain, ArenaOk, Linked, Held, ContextArena.Ready, Parents, Advance, Recent, ModelOk, WalkOk,
      Created, Grown;
    ghost var s, ps := arena.symbols[..], arena.places;
    if exact {
      CodedFacts(s, ps, m, v, depth, deepest);
      CodedPath(s, ps, m, v, depth, deepest);
      AdvanceShape(s, ps, m, v, depth, deepest);
    }
    predicted, order' := deepest, order;
    if order' >= ORDER {
      assert ParentLevel(s, ps, deepest);
      predicted := arena.symbols[predicted].parent;
    } else {
      order' := order' + 1;
    }
    if arena.nextSymbol >= ARENA_SIZE - ORDER {
      arena.CreateRoot();
      predicted, order' := 0, 0;
      RootHeld(arena);
    } else if exact {
      CodedAdvances(s, ps, m, v, depth, deepest, predicted);
    }
  }

  lemma CodedPath(s: seq<Symbol>, ps: seq<Place>, m: Model, v: Byte, depth: nat, deepest: nat)
    requires Coded(s, ps, m, v, depth, deepest)
    ensures deepest < |ps| && ps[deepest].path == m.history + [v]
  {
  }

  lemma InitialHeld(s: seq<Symbol>, ps: seq<Place>)
    requires |s| == ARENA_SIZE && ps == [ROOT_PLACE] && ArenaOk(s, ps, map[])
    ensures Held(s, ps, INITIAL, 0)
  {
  }

  /** An arena with nothing but its root holds the model at the start. */
  lemma RootHeld(arena: ContextArena)
    requires arena.Ready(map[]) && arena.places == [ROOT_PLACE]
    ensures arena.nextSymbol == |arena.places| && Held(arena.symbols[..], arena.places, INITIAL, 0)
  {
    hide ArenaOk, Held;
    InitialHeld(arena.symbols[..], arena.places);
  }

  /** Written output is what the stream of the whole rest begins with. */
  lemma WrittenIsEncoded(m: Model, input: seq<Byte>, c0: Coder, out0: seq<Byte>, c: Coder, out: seq<Byte>)
    requires ModelOk(m) && input != [] && Written(m, input[0], c0, out0, c, out)
    ensures Normal(c0) && Normal(c)
    ensures var m' := Advance(m, Holder(m.tables, m.history, 0, input[0]), input[0]);
      out0 + Encoded(m, c0, input) == out + Encoded(m', c, input[1..])
  {
    hide EncodeAll, SlotsFrom, Advance, Holder, Normal;
    NormalAfter(m, input[0], c0);
    var v := input[0];
    var n := EncodeAll(c0, SlotsFrom(m.tables, m.history, 0, v));
    var rest := Encoded(Advance(m, Holder(m.tables, m.history, 0, v), v), n.coder, input[1..]);
    assert Encoded(m, c0, input) == n.bytes + rest;
    assert out0 + (n.bytes + rest) == out0 + n.bytes + rest;
  }

  lemma NormalAfter(m: Model, v: Byte, c0: Coder)
    requires WalkOk(m) && Normal(c0)
    ensures Normal(EncodeAll(c0, SlotsFrom(m.tables, m.history, 0, v)).coder)
  {
  }

  /** enet_range_coder_compress, from a flat input to a buffer of limited size: it writes exactly the
      stream of the input, or returns 0 when that does not fit. */
  method Compress(arena: ContextArena, input: seq<Byte>, outData: array<Byte>) returns (size: nat)
    requires arena.symbols.Length == ARENA_SIZE && outData as object != arena.symbols
    modifies arena, arena.symbols, outData
    ensures size <= outData.Length
    ensures outData[..size] == if |Compressed(input)| <= outData.Length then Compressed(input) else []
  {
    hide Held, Coded, Written, Encoded, SizeWith, Advance, Holder, Normal, Grown, Leveled, TableOk, Predicts;
    var encoder := new RangeEncoder(outData);
    arena.CreateRoot();
    RootHeld(arena);
    InitialModelOk();
    var predicted: nat, order: nat := 0, 0;
    ghost var m := INITIAL;
    var next: nat := 0;
    assert input[0..] == input;
    while next < |input|
      invariant next <= |input| && encoder.Ready() && encoder.outData == outData && fresh(encoder)
      invariant arena.Sound() && order == |m.history| && ModelOk(m)
      invariant Held(arena.symbols[..], arena.places, m, predicted)
      invariant outData[..encoder.size] + Encoded(m, Coder(encoder.low, encoder.range), input[next..]) ==
        Compressed(input)
    {
      ghost var c0, out0 := Coder(encoder.low, encoder.range), outData[..encoder.size];
      var value := input[next];
      var ok, deepest := EncodeByte(arena, encoder, predicted, value, m);
      if !ok {
        TooBig(m, input[next..], c0, out0);
        return 0;
      }
      WrittenIsEncoded(m, input[next..], c0, out0, Coder(encoder.low, encoder.range), outData[..encoder.size]);
      assert input[next..][1..] == input[next + 1..];
      next := next + 1;
      ghost var depth := Holder(m.tables, m.history, 0, value);
      CodedLevels(arena.symbols[..], arena.places, m, value, depth, deepest);
      predicted, order := NextContext(arena, deepest, order, m, depth, value, true);
      m := Advance(m, depth, value);
    }
    EncodedEnd(m, Coder(encoder.low, encoder.range), input[next..]);
    var ok := encoder.Flush();
    if !ok { return 0; }
    size := encoder.size;
  }

  lemma InitialModelOk()
    ensures ModelOk(INITIAL) && |INITIAL.history| == 0
  {
  }

  lemma TooBig(m: Model, input: seq<Byte>, c0: Coder, out0: seq<Byte>)
    requires ModelOk(m) && Normal(c0) && input != []
    ensures SizeWith(m, input[0], c0, out0) <= |out0 + Encoded(m, c0, input)|
  {
    hide EncodeAll, SlotsFrom, Advance, Holder, Normal;
    NormalAfter(m, input[0], c0);
  }

  lemma EncodedEnd(m: Model, c: Coder, input: seq<Byte>)
    requires ModelOk(m) && Normal(c) && input == []
    ensures Encoded(m, c, input) == RangeCoder.Flush(c.low)
  {
  }
}
