/** enet_range_coder_decompress: reading one byte from the contexts, patching the contexts that were
    skipped, and the whole stream; and the round trip of the two methods. */
module Decompressor {
  import opened Octets
  import opened RangeCoder
  import opened Frequencies
  import opened PpmModel
  import opened RoundTrip
  import opened RangeStreams
  import opened ArenaShape
  import opened ArenaForest
  import opened ArenaHalving
  import opened ArenaSearch
  import opened ArenaTwigs
  import opened ArenaGrowth
  import opened ArenaDescent
  import opened ArenaLevels
  import opened ArenaParents
  import opened ContextWalk
  import opened Arena
  import opened Compressor

  /** Learning in one context does not look at another. */
  lemma LearnedApart(ts: Tables, d: Context, e: Context, v: Byte)
    requires TablesOk(ts) && d != e
    ensures LearnAt(LearnAt(ts, e, v), d, v) == LearnAt(LearnAt(ts, d, v), e, v)
    ensures Seen(LearnAt(ts, e, v), d, v) == Seen(ts, d, v)
  {
    TableAtOk(ts, d);
    TableAtOk(ts, e);
    hide Learn, TableOk, TablesOk;
    var x, y := Learn(TableAt(ts, d), ParamsOf(d), v), Learn(TableAt(ts, e), ParamsOf(e), v);
    TwoUpdates(ts, d, e, x, y);
  }

  lemma TwoUpdates(ts: Tables, d: Context, e: Context, x: Table, y: Table)
    requires d != e
    ensures ts[d := x][e := y] == ts[e := y][d := x]
    ensures TableAt(ts[d := x], e) == TableAt(ts, e) && TableAt(ts[e := y], d) == TableAt(ts, d)
  {
  }

  /** Learning in a shorter context first and in the longer ones afterwards comes to the same. */
  lemma {:induction false} LearnedInAnyOrder(ts: Tables, c: Context, k: nat, n: nat, v: Byte)
    requires TablesOk(ts) && n <= k <= |c|
    ensures LearnChain(LearnAt(ts, c[k..], v), c, n, v) == LearnAt(LearnChain(ts, c, n, v), c[k..], v)
    ensures PpmModel.Created(LearnAt(ts, c[k..], v), c, n, v) == PpmModel.Created(ts, c, n, v)
  {
    hide LearnAt, TableOk, Seen;
    if n > 0 {
      LearnedInAnyOrder(ts, c, k, n - 1, v);
      assert |c[n - 1..]| != |c[k..]|;
      LearnedApart(LearnChain(ts, c, n - 1, v), c[n - 1..], c[k..], v);
      LearnedApart(ts, c[n - 1..], c[k..], v);
    }
  }

  lemma LearnedBottomFirst(m: Model, k: nat, v: Byte)
    requires WalkOk(m) && k <= |m.history|
    ensures LearnChain(LearnAt(m.tables, m.history[k..], v), m.history, k, v)
         == LearnChain(m.tables, m.history, k + 1, v)
    ensures PpmModel.Created(LearnAt(m.tables, m.history[k..], v), m.history, k, v)
          + (if Seen(m.tables, m.history[k..], v) then 0 else 1)
         == PpmModel.Created(m.tables, m.history, k + 1, v)
  {
    hide Learn, TableOk;
    LearnedInAnyOrder(m.tables, m.history, k, k, v);
  }

  /** The context that gave the byte has learned it, the longer ones it was not found in have not. */
  ghost predicate BottomDone(s: seq<Symbol>, ps: seq<Place>, m: Model, v: Byte, k: nat, context: nat, bottom: nat,
                             predicted: nat) {
    && ModelOk(m) && k <= |m.history|
    && ArenaOk(s, ps, LearnAt(m.tables, m.history[k..], v))
    && |s| == ARENA_SIZE && |ps| == m.used + (if Seen(m.tables, m.history[k..], v) then 0 else 1)
    && context < |ps| && ps[context].path == m.history[k..]
    && predicted < |ps| && ps[predicted].path == m.history
    && IsNode(ps, bottom) && ps[bottom].path == m.history[k..] + [v]
    && Linked(s, ps, 0)
  }

  /** The model the patch loop walks over: the bottom context has learned already. */
  ghost function Patched(m: Model, k: nat, v: Byte, used: nat): Model
    requires WalkOk(m) && k <= |m.history|
  {
    Model(LearnAt(m.tables, m.history[k..], v), m.history, used)
  }

  lemma PatchBegins(s: seq<Symbol>, ps: seq<Place>, m: Model, v: Byte, k: nat, context: nat, bottom: nat,
                    predicted: nat)
    requires BottomDone(s, ps, m, v, k, context, bottom, predicted)
    ensures WalkOk(m) && k <= |m.history| && bottom < |ps| && ps[bottom].path == m.history[k..] + [v]
    ensures context < |ps| && ps[context].path == m.history[k..]
    ensures WalkOk(Patched(m, k, v, |ps|)) && |ps| + k <= ARENA_SIZE
    ensures Walking(s, ps, Patched(m, k, v, |ps|), v, 0, predicted, 0, k)
    ensures bottom != 0
    ensures |ps| == m.used + (if Seen(m.tables, m.history[k..], v) then 0 else 1)
  {
    hide LearnAt, ArenaOk, Linked;
  }

  lemma PatchStep(s: seq<Symbol>, ps: seq<Place>, m1: Model, v: Byte, j: nat, patch: nat, open: nat, k: nat,
                  context: nat)
    requires Walking(s, ps, m1, v, j, patch, open, k) && k <= |m1.history|
    requires context < |ps| && ps[context].path == m1.history[k..]
    ensures j <= k && patch < |ps| && ps[patch].path == m1.history[j..]
    ensures patch == context <==> j == k
    ensures WalkOk(m1) && m1.used + k <= ARENA_SIZE
  {
    hide LearnChain, Linked;
    assert ps[patch].path == m1.history[j..];
    ArenaPlaced(s, ps, LearnChain(m1.tables, m1.history, j, v));
    SamePath(s, ps, patch, context);
    if j != k {
      assert |m1.history[j..]| != |m1.history[k..]|;
    }
  }

  lemma SamePath(s: seq<Symbol>, ps: seq<Place>, i: nat, j: nat)
    requires Placed(s, ps) && i < |ps| && j < |ps|
    ensures ps[i].path == ps[j].path <==> i == j
  {
  }

  lemma PatchEnds(s: seq<Symbol>, s': seq<Symbol>, ps: seq<Place>, m: Model, v: Byte, k: nat, used: nat,
                  context: nat, open: nat, bottom: nat, deepest: nat)
    requires ModelOk(m) && k <= |m.history|
    requires used == m.used + (if Seen(m.tables, m.history[k..], v) then 0 else 1)
    requires Walking(s, ps, Patched(m, k, v, used), v, k, context, open, k)
    requires bottom < |ps| && ps[bottom].path == m.history[k..] + [v] && 0 < bottom < 0x1_0000
    requires if open == 0 then s' == s && deepest == bottom
      else Relinked(s, s', open, bottom) && deepest < |ps| && ps[deepest].path == m.history + [v]
    ensures Coded(s', ps, m, v, k, deepest)
  {
    hide LearnChain, LearnAt, PpmModel.Created, ArenaOk;
    var m1 := Patched(m, k, v, used);
    LearnedBottomFirst(m, k, v);
    var ts := LearnChain(m1.tables, m1.history, k, v);
    assert k == 0 ==> m.history[k..] == m.history;
    PatchLinks(s, s', ps, m1, v, k, context, open, bottom);
    ArenaRelinked(s, s', ps, ts, open, bottom);
    ArenaPlaced(s, ps, ts);
    assert ps[0].path == [];
  }

  lemma ArenaRelinked(s: seq<Symbol>, s': seq<Symbol>, ps: seq<Place>, ts: Tables, child: nat, symbol: Half)
    requires ArenaOk(s, ps, ts) && (s' == s || Relinked(s, s', child, symbol))
    ensures ArenaOk(s', ps, ts)
  {
    hide TreeOk, Mass, TablesOk, Total;
    PlacedKept(s, s', ps);
    forall d: nat | d < |ps| ensures TreeOk(s', ps, d, CountsAt(ts, ps, d)) {
      TreeSame(s, s', ps, d, CountsAt(ts, ps, d));
    }
    forall d: nat | d < |ps| ensures HeaderOk(s'[d], ps[d].path, ts) {
      assert HeaderOk(s[d], ps[d].path, ts);
    }
  }

  lemma PatchLinks(s: seq<Symbol>, s': seq<Symbol>, ps: seq<Place>, m1: Model, v: Byte, k: nat,
                   context: nat, open: nat, bottom: nat)
    requires Walking(s, ps, m1, v, k, context, open, k)
    requires bottom < |ps| && ps[bottom].path == m1.history[k..] + [v] && 0 < bottom < 0x1_0000
    requires if open == 0 then s' == s else Relinked(s, s', open, bottom)
    ensures |s'| == |s| && Linked(s', ps, 0)
  {
    hide LearnChain, ArenaOk, Linked, PpmModel.Created, WalkOk;
    if open != 0 {
      assert ps[open].path == m1.history[k - 1..] + [v];
      assert ps[open].path[1..] == m1.history[k..] + [v];
      LinkClosed(s, s', ps, open, bottom);
    }
  }

  lemma LinkClosed(s: seq<Symbol>, s': seq<Symbol>, ps: seq<Place>, open: nat, bottom: Half)
    requires Linked(s, ps, open) && Relinked(s, s', open, bottom) && IsNode(ps, open)
    requires bottom < |ps| && ps[open].path != [] && ps[bottom].path == ps[open].path[1..]
    ensures |s'| == |s| && Linked(s', ps, 0)
  {
    forall i | IsNode(ps, i) ensures ParentOk(s', ps, i) {
      if i != open { assert ParentOk(s, ps, i); }
    }
  }

  /** The patch loop: the contexts skipped on the way to the byte learn it now that it is known. */
  method PatchContexts(arena: ContextArena, predicted: nat, context: nat, bottom: nat, value: Byte,
                       ghost order: nat, ghost m: Model, ghost k: nat, ghost exact: bool)
      returns (deepest: nat)
    requires arena.Sound()
    requires Bottomed(arena.symbols[..], arena.places, predicted, order, context, k, bottom)
    requires exact ==> BottomDone(arena.symbols[..], arena.places, m, value, k, context, bottom, predicted)
    modifies arena, arena.symbols
    ensures arena.Sound() && Leveled(arena.symbols[..], arena.places, 0) && arena.nextSymbol <= ARENA_SIZE
    ensures IsNode(arena.places, deepest) && |arena.places[deepest].path| == order + 1
    ensures exact ==> Coded(arena.symbols[..], arena.places, m, value, k, deepest)
  {
    hide BottomDone, Walking, Walked, Linked, Counting, Coded, LearnAt, LearnChain, TableOk, Total, Before, Mass, Seen,
      Open, Grown, Leveled, Due, Patching, Bottomed;
    ghost var used, m1 := |arena.places|, m;
    if exact {
      BottomModel(arena.symbols[..], arena.places, m, value, k, context, bottom, predicted);
      PatchBegins(arena.symbols[..], arena.places, m, value, k, context, bottom, predicted);
      m1 := Patched(m, k, value, used);
    }
    PatchingBegins(arena.symbols[..], arena.places, predicted, order, context, k, bottom);
    var patch: nat, open: nat := predicted, 0;
    ghost var j: nat := 0;
    deepest := bottom;
    while patch != context
      invariant arena.Sound()
      invariant Patching(arena.symbols[..], arena.places, order, context, k, bottom, j, patch, open, deepest)
      invariant exact ==> PatchWalk(arena.symbols[..], arena.places, m, m1, value, j, patch, open, k, context, bottom,
        deepest)
      decreases k - j
    {
      PatchingFacts(arena.symbols[..], arena.places, order, context, k, bottom, j, patch, open, deepest);
      if exact { PatchStep(arena.symbols[..], arena.places, m1, value, j, patch, open, k, context); }
      ghost var s0, ps0 := arena.symbols[..], arena.places;
      var symbol := LearnByte(arena, patch, open, value, m1, j, k, exact);
      PatchingStep(s0, arena.symbols[..], ps0, arena.places, order, context, k, bottom, j, patch, open, deepest,
        symbol);
      if open == 0 { deepest := symbol; }
      open := symbol;
      patch := arena.symbols[patch].parent;
      j := j + 1;
    }
    PatchingFacts(arena.symbols[..], arena.places, order, context, k, bottom, j, patch, open, deepest);
    ghost var s, ps := arena.symbols[..], arena.places;
    if exact {
      PatchStep(s, ps, m1, value, j, patch, open, k, context);
      StepFacts(s, ps, m1, value, j, patch, open, k);
    }
    if open != 0 {
      arena.SetParent(open, bottom);
      GrownRelinked(s, arena.symbols[..], ps, arena.trees, 0, 0, open, bottom);
    }
    PatchingEnds(s, arena.symbols[..], ps, order, context, k, bottom, j, open, deepest);
    if exact { PatchEnds(s, arena.symbols[..], ps, m, value, k, used, patch, open, bottom, deepest); }
  }

  /** One step of the patch loop: a subcontext learns the byte, and its symbol is linked from the one before. */
  method LearnByte(arena: ContextArena, context: nat, open: nat, value: Byte, ghost m: Model, ghost depth: nat,
                   ghost steps: nat, ghost exact: bool)
      returns (symbol: nat)
    requires arena.Sound() && context < |arena.places| < ARENA_SIZE && arena.places[context].path != []
    requires Leveled(arena.symbols[..], arena.places, open)
    requires open == 0 ||
      (IsNode(arena.places, open) && |arena.places[open].path| == |arena.places[context].path| + 2)
    requires exact ==>
      && Walking(arena.symbols[..], arena.places, m, value, depth, context, open, steps)
      && depth < steps <= |m.history|
    modifies arena, arena.symbols
    ensures arena.Sound() && old(arena.places) <= arena.places && |arena.places| <= |old(arena.places)| + 1
    ensures IsNode(arena.places, symbol) && |arena.places[symbol].path| == |arena.places[context].path| + 1
    ensures Leveled(arena.symbols[..], arena.places, symbol)
    ensures forall i :: 0 <= i < |old(arena.places)| && (i != open || i == 0) ==>
      arena.symbols[i].parent == old(arena.symbols[i].parent)
    ensures exact ==>
      && depth < |m.history| && symbol < |arena.places| && arena.places[symbol].path == m.history[depth..] + [value]
      && Walking(arena.symbols[..], arena.places, m, value, depth + 1, arena.symbols[context].parent, symbol, steps)
  {
    hide Walking, Walked, Linked, Counting, LearnChain, TableOk, Total, Before, Mass, Seen, Grown, Leveled, Due;
    if exact { StepFacts(arena.symbols[..], arena.places, m, value, depth, context, open, steps); }
    if exact { WalkingRoom(arena.symbols[..], arena.places, m, value, depth, context, open, steps); }
    var under, count;
    symbol, under, count := CountByte(arena, context, open, value, SUBCONTEXT, m, depth, steps, exact);
    DueFacts(arena.symbols[..], arena.places, arena.trees, context, symbol, count, SUBCONTEXT);
    if exact {
      SymbolPath(arena.symbols[..], arena.places, m, value, depth, context, symbol);
      TotalBounds(TableAt(m.tables, m.history[depth..]), SUBCONTEXT);
    }
    FinishByte(arena, context, count, value, SUBCONTEXT, symbol, m, depth, steps, exact);
  }

  /** Where the patch loop stands in the model. */
  ghost predicate PatchWalk(s: seq<Symbol>, ps: seq<Place>, m: Model, m1: Model, v: Byte, j: nat, patch: nat,
                            open: nat, k: nat, context: nat, bottom: nat, deepest: nat) {
    && j <= k <= |m.history| && m1.history == m.history
    && Walking(s, ps, m1, v, j, patch, open, k)
    && context < |ps| && ps[context].path == m.history[k..]
    && bottom < |ps| && ps[bottom].path == m.history[k..] + [v]
    && if j == 0 then open == 0 && deepest == bottom
       else open != 0 && deepest < |ps| && ps[deepest].path == m.history + [v]
  }

  lemma BottomModel(s: seq<Symbol>, ps: seq<Place>, m: Model, v: Byte, k: nat, context: nat, bottom: nat,
                    predicted: nat)
    requires BottomDone(s, ps, m, v, k, context, bottom, predicted)
    ensures ModelOk(m)
  {
  }

  /** Where a search through the contexts of the model stands. */
  ghost predicate Seeking(s: seq<Symbol>, ps: seq<Place>, m: Model, i: nat, context: nat, predicted: nat) {
    && Held(s, ps, m, predicted) && i <= |m.history|
    && context < |ps| && ps[context].path == m.history[i..]
  }

  lemma SeekFacts(s: seq<Symbol>, ps: seq<Place>, m: Model, i: nat, context: nat, predicted: nat)
    requires Seeking(s, ps, m, i, context, predicted)
    ensures ModelOk(m) && i <= |m.history| && |s| == ARENA_SIZE && context < |ps| < |s|
    ensures Open(s, ps, m.tables, context) && ps[context].path == m.history[i..]
    ensures context == 0 <==> i == |m.history|
    ensures HeaderOk(s[context], m.history[i..], m.tables)
    ensures i < |m.history| ==> Seeking(s, ps, m, i + 1, s[context].parent, predicted)
  {
    hide Forest, Known, Mass, Total, TreeOk;
    RootPath(s, ps, context);
    assert HeaderOk(s[context], ps[context].path, m.tables);
    if i < |m.history| {
      assert ParentOk(s, ps, context);
      assert m.history[i..][1..] == m.history[i + 1..];
    }
  }

  /** How the reading of one byte goes at one context. */
  lemma ReadsAt(m: Model, i: nat, stream: seq<Byte>, c: Coder, pos: nat)
    requires ModelOk(m) && i <= |m.history| && Normal(c)
    ensures var t, p := TableAt(m.tables, m.history[i..]), ParamsOf(m.history[i..]);
      && TableOk(t, p) && t.escapes <= Total(t, p) < BOTTOM
      && (i == |m.history| ==> p == ROOT && CanEscape(t, p))
      && (i < |m.history| ==> p == SUBCONTEXT)
      && (i < |m.history| && !CanEscape(t, p) ==>
            ReadFrom(m.tables, m.history, i, stream, c, pos) == ReadFrom(m.tables, m.history, i + 1, stream, c, pos))
      && (CanEscape(t, p) ==> Fits(EscapeSlot(t, p)))
  {
    hide Window, Mass, Before, Encode, Normal, Lookup;
    TableAtOk(m.tables, m.history[i..]);
    var t, p := TableAt(m.tables, m.history[i..]), ParamsOf(m.history[i..]);
    TotalBounds(t, p);
    if CanEscape(t, p) { EscapeFits(t, p); }
  }

  lemma ReadsCode(m: Model, i: nat, stream: seq<Byte>, c: Coder, pos: nat, code: nat)
    requires ModelOk(m) && i <= |m.history| && Normal(c)
    requires var t, p := TableAt(m.tables, m.history[i..]), ParamsOf(m.history[i..]);
      && TableOk(t, p) && CanEscape(t, p) && Total(t, p) < BOTTOM
      && code == Read(c, Window(stream, pos), Total(t, p))
    ensures var t, p := TableAt(m.tables, m.history[i..]), ParamsOf(m.history[i..]);
      var r := ReadFrom(m.tables, m.history, i, stream, c, pos);
      if Total(t, p) <= code then r == if i < |m.history| then Rejected else OutOfRange
      else if code < t.escapes then
        Fits(EscapeSlot(t, p)) &&
        var n := Encode(c, EscapeSlot(t, p));
        if i == |m.history| then r == End
        else r == ReadFrom(m.tables, m.history, i + 1, stream, n.coder, pos + |n.bytes|)
      else
        var v := Lookup(t, p, code);
        var n := Encode(c, SlotOf(t, p, v));
        r == Found(v, i, n.coder, pos + |n.bytes|)
  {
    hide Window, Mass, Before, Encode, Normal, Lookup, Read;
    TableAtOk(m.tables, m.history[i..]);
    var t, p := TableAt(m.tables, m.history[i..]), ParamsOf(m.history[i..]);
    EscapeFits(t, p);
    TotalBounds(t, p);
  }

  /** The context that gave the byte is done once its totals are. */
  lemma BottomFromVisit(s0: seq<Symbol>, s1: seq<Symbol>, s2: seq<Symbol>, ps0: seq<Place>, ps: seq<Place>,
                        m: Model, v: Byte, k: nat, context: nat, symbol: nat, predicted: nat)
    requires Seeking(s0, ps0, m, k, context, predicted)
    requires Visited(s0, s1, ps0, ps, m.tables, context, v, symbol)
    requires k == |m.history| || |ps| == |ps0|
    requires |s2| == |s1| && (forall i :: 0 <= i < |s1| ==> s2[i].parent == s1[i].parent)
    requires ArenaOk(s2, ps, LearnAt(m.tables, m.history[k..], v))
    ensures BottomDone(s2, ps, m, v, k, context, symbol, predicted)
  {
    hide ArenaOk, LearnAt, Counted;
    VisitedLinks(s0, s1, ps0, ps, m.tables, context, v, symbol, 0);
    if symbol == |ps0| {
      BottomRootLink(s0, s1, ps0, ps, m, v, context, symbol, predicted);
    }
    forall i | IsNode(ps, i) ensures ParentOk(s2, ps, i) {
      assert ParentOk(s1, ps, i);
    }
  }

  lemma BottomRootLink(s0: seq<Symbol>, s1: seq<Symbol>, ps0: seq<Place>, ps: seq<Place>,
                       m: Model, v: Byte, context: nat, symbol: nat, predicted: nat)
    requires Seeking(s0, ps0, m, |m.history|, context, predicted)
    requires Visited(s0, s1, ps0, ps, m.tables, context, v, symbol) && symbol == |ps0|
    ensures |ps| <= |s1| && ParentOk(s1, ps, symbol)
  {
    hide ArenaOk;
    CountedPlaced(s1, ps, m.tables, context, v);
    assert ps[symbol].path == [] + [v] == [v];
    assert ps[0].path == [] == [v][1..];
  }

  datatype Progress = Got | AtEnd | Corrupt

  /** The read has divided the decoder's range by total; c is what it was before. */
  ghost predicate Halfway(decoder: RangeDecoder, c: Coder, total: nat)
    reads decoder
  {
    0 < total && decoder.low == c.low && decoder.range == c.range / total && decoder.AtWindow()
  }

  /** A symbol was found in the context's tree: take its slot off the stream and do the totals. */
  method TakeSymbol(arena: ContextArena, decoder: RangeDecoder, context: nat, symbol: nat, value: Byte,
                    under: nat, count: nat, p: Params, ghost s0: seq<Symbol>, ghost ps0: seq<Place>,
                    ghost c: Coder, ghost m: Model, ghost k: nat, ghost predicted: nat, ghost exact: bool)
    requires arena.nextSymbol == |arena.places| && arena.symbols.Length == ARENA_SIZE
    requires Due(arena.symbols[..], arena.places, arena.trees, context, symbol, count, p) && 1 <= count
    requires p == ROOT || 0 < arena.symbols[context].escapes
    requires context < arena.symbols.Length && Halfway(decoder, c, arena.symbols[context].total) && Steady(c)
    requires exact ==>
      && Seeking(s0, ps0, m, k, context, predicted) && p == ParamsOf(m.history[k..])
      && Visited(s0, arena.symbols[..], ps0, arena.places, m.tables, context, value, symbol)
      && (k == |m.history| || |arena.places| == |ps0|)
      && Normal(c)
      && var t := TableAt(m.tables, m.history[k..]);
         && TableOk(t, p) && Fits(SlotOf(t, p, value))
         && under == Before(t, p, value) && count == t.counts[value] + p.minimum
    modifies arena.symbols, decoder
    ensures arena.Sound() && decoder.Ready()
    ensures forall i :: 0 <= i < ARENA_SIZE ==> arena.symbols[i].parent == old(arena.symbols[i].parent)
    ensures exact ==>
      && BottomDone(arena.symbols[..], arena.places, m, value, k, context, symbol, predicted)
      && Normal(c) && Fits(SlotOf(TableAt(m.tables, m.history[k..]), p, value))
      && var n := Encode(c, SlotOf(TableAt(m.tables, m.history[k..]), p, value));
         Coder(decoder.low, decoder.range) == n.coder && decoder.pos == old(decoder.pos) + |n.bytes|
  {
    hide Visited, Counted, BottomDone, TableOk, Total, Before, Mass, Normal, Encode, ArenaOk, Window, Fits, Due, Grown,
      Narrows, Steady, Seeking, Leveled;
    ghost var s1, ps := arena.symbols[..], arena.places;
    DueFacts(s1, ps, arena.trees, context, symbol, count, p);
    DueNarrows(s1, ps, arena.trees, context, symbol, count, p, under);
    if exact {
      SeekFacts(s0, ps0, m, k, context, predicted);
      VisitedBounds(s0, s1, ps0, ps, m.tables, context, value, symbol);
      VisitedCounted(s0, s1, ps0, ps, m, value, k, context, symbol);
      TotalBounds(TableAt(m.tables, m.history[k..]), p);
    }
    decoder.Decode(Slot(arena.symbols[context].escapes + under, count, arena.symbols[context].total), c);
    arena.Reinforce(context, count, p, symbol, m.tables, value, exact);
    if exact { BottomFromVisit(s0, s1, arena.symbols[..], ps0, ps, m, value, k, context, symbol, predicted); }
  }

  lemma VisitedCounted(s0: seq<Symbol>, s1: seq<Symbol>, ps0: seq<Place>, ps: seq<Place>,
                       m: Model, v: Byte, k: nat, context: nat, symbol: nat)
    requires ModelOk(m) && k <= |m.history| && context < |ps0| && ps0[context].path == m.history[k..]
    requires Visited(s0, s1, ps0, ps, m.tables, context, v, symbol)
    ensures Counted(s1, ps, m.tables, context, v) && context < |ps| <= |s1| && ps[context].path == m.history[k..]
    ensures var t := TableAt(m.tables, m.history[k..]);
      |t.counts| == VALUES && s1[context].escapes == t.escapes
        && s1[context].total == Total(t, ParamsOf(m.history[k..]))
  {
    hide Mass, Forest, Known, Placed, Total;
    CountedFacts(s1, ps, m.tables, context, v);
  }

  /** What a reading says of one context, and of the next one where there is nothing to read. */
  lemma ReadingFacts(s: seq<Symbol>, ps: seq<Place>, m: Model, k: nat, context: nat, predicted: nat, r: Reading,
                     stream: seq<Byte>, c: Coder, pos: nat)
    requires ReadingOn(s, ps, m, k, context, predicted, r, stream, c, pos)
    ensures ModelOk(m) && k <= |m.history| && |s| == ARENA_SIZE && context < |ps| < |s| && Normal(c)
    ensures Seeking(s, ps, m, k, context, predicted)
    ensures Open(s, ps, m.tables, context) && ps[context].path == m.history[k..] && (context == 0 <==> k == |m.history|)
    ensures var t, p := TableAt(m.tables, m.history[k..]), ParamsOf(m.history[k..]);
      && |t.counts| == VALUES && TableOk(t, p) && s[context].escapes == t.escapes && s[context].total == Total(t, p)
      && (k == |m.history| ==> CanEscape(t, p))
    ensures k < |m.history| && !(0 < s[context].escapes < s[context].total) ==>
      ReadingOn(s, ps, m, k + 1, s[context].parent, predicted, r, stream, c, pos)
  {
    hide Seeking, Total, Mass, Window, ReadFrom, Open, Normal;
    SeekFacts(s, ps, m, k, context, predicted);
    ReadsAt(m, k, stream, c, pos);
  }

  /** A code that is no escape has been read from a context: what it stands for, if it is in range. */
  ghost predicate CodeRead(m: Model, k: nat, r: Reading, c: Coder, pos: nat, code: nat) {
    && ModelOk(m) && k <= |m.history| && Normal(c)
    && var t, p := TableAt(m.tables, m.history[k..]), ParamsOf(m.history[k..]);
       && TableOk(t, p) && t.escapes <= code
       && if Total(t, p) <= code then r == if k < |m.history| then Rejected else OutOfRange
          else
            && Fits(SlotOf(t, p, Lookup(t, p, code)))
            && var n := Encode(c, SlotOf(t, p, Lookup(t, p, code)));
               r == Found(Lookup(t, p, code), k, n.coder, pos + |n.bytes|)
  }

  lemma ReadingCode(s: seq<Symbol>, ps: seq<Place>, m: Model, k: nat, context: nat, predicted: nat, r: Reading,
                    stream: seq<Byte>, c: Coder, pos: nat, code: nat)
    requires ReadingOn(s, ps, m, k, context, predicted, r, stream, c, pos) && context < |s| && Steady(c)
    requires 0 < s[context].escapes < s[context].total < BOTTOM
    requires code == Read(c, Window(stream, pos), s[context].total)
    ensures code >= s[context].escapes ==> CodeRead(m, k, r, c, pos, code)
    ensures code < s[context].escapes ==>
      && Normal(c) && Fits(Slot(0, s[context].escapes, s[context].total))
      && var n := Encode(c, Slot(0, s[context].escapes, s[context].total));
         if context == 0 then r == End
         else ReadingOn(s, ps, m, k + 1, s[context].parent, predicted, r, stream, n.coder, pos + |n.bytes|)
  {
    hide Seeking, Total, Mass, Window, ReadFrom, Open, Normal, Encode, Fits, Lookup, Read;
    SeekFacts(s, ps, m, k, context, predicted);
    ReadsAt(m, k, stream, c, pos);
    ReadsCode(m, k, stream, c, pos, code);
    var t, p := TableAt(m.tables, m.history[k..]), ParamsOf(m.history[k..]);
    if t.escapes <= code < Total(t, p) { LookupFits(t, p, code); }
  }

  lemma EscapeNarrows(escapes: nat, total: nat)
    requires 0 < escapes < total < BOTTOM
    ensures Narrows(Slot(0, escapes, total))
    ensures Slot(0, escapes, total).total == total
  {
  }

  /** The slot of a symbol that was found leaves at least one part in 256. */
  lemma DueNarrows(s: seq<Symbol>, ps: seq<Place>, trees: seq<Twig>, c: nat, symbol: nat, count: nat, p: Params,
                   under: nat)
    requires Due(s, ps, trees, c, symbol, count, p) && 1 <= count && c < |s| && (p == ROOT || 0 < s[c].escapes)
    ensures Narrows(Slot(s[c].escapes + under, count, s[c].total)) && 0 < s[c].total
  {
    hide Leveled;
    GrownAt(s, ps, trees, symbol, p.delta, c);
    GrownAt(s, ps, trees, symbol, p.delta, symbol);
    TreeSlots(s, ps, trees[c], c, DueAt(ps, c, symbol, p.delta));
    WeightAtLeast(s, trees[c], symbol);
  }

  /** What the reading of a byte comes to, where its codes are in range. */
  ghost predicate Finds(r: Reading, s: seq<Symbol>, ps: seq<Place>, m: Model, predicted: nat, progress: Progress,
                        value: Byte, c: Coder, pos: nat, k: nat, context: nat, bottom: nat) {
    match r
    case Found(v, depth, c', pos') =>
      && progress == Got && value == v && k == depth && c == c' && pos == pos'
      && BottomDone(s, ps, m, v, depth, context, bottom, predicted)
    case End => progress == AtEnd
    case Rejected => progress == Corrupt
    case OutOfRange => true
  }

  /** Reading has come to context k of the model, and what is left to read is what there was to read at first. */
  ghost predicate ReadingOn(s: seq<Symbol>, ps: seq<Place>, m: Model, k: nat, context: nat, predicted: nat, r: Reading,
                            stream: seq<Byte>, c: Coder, pos: nat) {
    && Seeking(s, ps, m, k, context, predicted) && Normal(c)
    && r == ReadFrom(m.tables, m.history, k, stream, c, pos)
  }

  /** The first half of the decoder's work on one byte: from the longest context down to the one
      whose table gives a byte, to an escape in the root, or to a code a subcontext rejects. */
  method FindByte(arena: ContextArena, decoder: RangeDecoder, predicted: nat, ghost order: nat, ghost m: Model,
                  ghost r: Reading, ghost exact: bool)
      returns (progress: Progress, context: nat, bottom: nat, value: Byte, ghost k: nat)
    requires arena.Sound() && Predicts(arena.symbols[..], arena.places, predicted, order) && decoder.Ready()
    requires exact ==> ReadingOn(arena.symbols[..], arena.places, m, 0, predicted, predicted, r, decoder.inData,
      Coder(decoder.low, decoder.range), decoder.pos)
    modifies arena, arena.symbols, decoder
    ensures arena.nextSymbol <= ARENA_SIZE
    ensures progress == Got ==>
      && arena.Sound() && decoder.Ready()
      && Bottomed(arena.symbols[..], arena.places, predicted, order, context, k, bottom)
    ensures exact ==> Finds(r, arena.symbols[..], arena.places, m, predicted, progress, value,
      Coder(decoder.low, decoder.range), decoder.pos, k, context, bottom)
  {
    hide Seeking, Held, TableOk, Total, Before, Mass, Encode, Window, Fits, Read, ReadFrom, Lookup, Open, Grown,
      Leveled, Reached, Predicts, Bottomed, Steady, Normal, Finds, ReadingOn;
    ReachedFirst(arena.symbols[..], arena.places, predicted, order);
    context, bottom, value, k := predicted, 0, 0, 0;
    while context != 0
      invariant arena.Sound() && decoder.Ready()
      invariant Predicts(arena.symbols[..], arena.places, predicted, order)
      invariant Reached(arena.symbols[..], arena.places, predicted, order, context, k)
      invariant exact ==> ReadingOn(arena.symbols[..], arena.places, m, k, context, predicted, r, decoder.inData,
        Coder(decoder.low, decoder.range), decoder.pos)
      decreases order - k
    {
      ghost var c, pos := Coder(decoder.low, decoder.range), decoder.pos;
      ReachedNext(arena.symbols[..], arena.places, predicted, order, context, k);
      if exact { ReadingFacts(arena.symbols[..], arena.places, m, k, context, predicted, r, decoder.inData, c, pos); }
      var escapes, total := arena.symbols[context].escapes, arena.symbols[context].total;
      if 0 < escapes < total {
        var code := decoder.Read(total);
        if exact {
          ReadingCode(arena.symbols[..], arena.places, m, k, context, predicted, r, decoder.inData, c, pos, code);
        }
        if code < escapes {
          EscapeNarrows(escapes, total);
          decoder.Decode(Slot(0, escapes, total), c);
        } else {
          var ok;
          ok, bottom, value := FindHere(arena, decoder, predicted, context, code, order, c, m, k, r, exact);
          progress := if ok then Got else Corrupt;
          return;
        }
      }
      context := arena.symbols[context].parent;
      k := k + 1;
    }
    ReachedNext(arena.symbols[..], arena.places, predicted, order, context, k);
    progress, bottom, value := FindInRoot(arena, decoder, predicted, order, m, k, r, exact);
  }

  /** The decoder's step in a context where the code is no escape. */
  method FindHere(arena: ContextArena, decoder: RangeDecoder, ghost predicted: nat, context: nat, code: nat,
                  ghost order: nat, ghost c: Coder, ghost m: Model, ghost k: nat, ghost r: Reading, ghost exact: bool)
      returns (ok: bool, bottom: nat, value: Byte)
    requires arena.Sound() && Predicts(arena.symbols[..], arena.places, predicted, order)
    requires Reached(arena.symbols[..], arena.places, predicted, order, context, k)
    requires 0 < context < |arena.symbols[..]| && 0 < arena.symbols[context].escapes <= code
    requires Halfway(decoder, c, arena.symbols[context].total) && Steady(c)
    requires exact ==>
      && Seeking(arena.symbols[..], arena.places, m, k, context, predicted)
      && CodeRead(m, k, r, c, decoder.pos, code)
    modifies arena.symbols, decoder
    ensures ok ==>
      && arena.Sound() && decoder.Ready()
      && Bottomed(arena.symbols[..], arena.places, predicted, order, context, k, bottom)
    ensures exact ==> Finds(r, arena.symbols[..], arena.places, m, predicted, if ok then Got else Corrupt, value,
      Coder(decoder.low, decoder.range), decoder.pos, k, context, bottom)
  {
    hide Seeking, TableOk, Total, Before, Mass, Encode, Fits, Lookup, Open, Grown, Leveled, Reached, Bottomed,
      Steady, Normal, Due, Visits, Sown, Visited, BottomDone, Halfway, RangeDecoder.AtWindow;
    ghost var s0, ps := arena.symbols[..], arena.places;
    ReachedNext(s0, ps, predicted, order, context, k);
    if exact { SeekFacts(s0, ps, m, k, context, predicted); }
    var escapes := arena.symbols[context].escapes;
    var symbol, under, count;
    ok, symbol, value, under, count := arena.ContextTryDecode(context, code - escapes, m.tables, exact);
    bottom := symbol;
    if !ok { return; }
    ghost var s1 := arena.symbols[..];
    VisitsFacts(s0, s1, ps, ps, arena.trees, m.tables, context, value, symbol, exact);
    BecomesDue(s0, s1, s1, ps, ps, arena.trees, context, symbol, 0, count, SUBCONTEXT);
    DueFacts(s1, ps, arena.trees, context, symbol, count, SUBCONTEXT);
    TotalsKept(s0, s1, ps, ps, arena.trees, context, symbol, SUBCONTEXT.delta);
    TakeSymbol(arena, decoder, context, symbol, value, under, count, SUBCONTEXT, s0, ps, c, m, k, predicted, exact);
    LeveledKept(s1, arena.symbols[..], ps, 0);
    BecomesBottom(s0, arena.symbols[..], ps, ps, predicted, order, context, k, symbol);
  }

  lemma TotalsKept(s0: seq<Symbol>, s: seq<Symbol>, ps0: seq<Place>, ps: seq<Place>, trees: seq<Twig>, c: nat,
                   symbol: nat, delta: nat)
    requires Sown(s0, s, ps0, ps, trees, c, symbol, delta) && c < |s0| && c < |s|
    ensures s[c].escapes == s0[c].escapes && s[c].total == s0[c].total
  {
    hide Grown;
    assert SameTotals(s0[c], s[c]);
  }

  /** The decoder's step in the root, which holds every byte and whose escape ends the stream. A code above its
      total, which the source does not check, leads to some byte. */
  method FindInRoot(arena: ContextArena, decoder: RangeDecoder, ghost predicted: nat, ghost order: nat, ghost m: Model,
                    ghost k: nat, ghost r: Reading, ghost exact: bool)
      returns (progress: Progress, bottom: nat, value: Byte)
    requires arena.Sound() && Predicts(arena.symbols[..], arena.places, predicted, order) && decoder.Ready()
    requires Reached(arena.symbols[..], arena.places, predicted, order, 0, k)
    requires exact ==> ReadingOn(arena.symbols[..], arena.places, m, k, 0, predicted, r, decoder.inData,
      Coder(decoder.low, decoder.range), decoder.pos)
    modifies arena, arena.symbols, decoder
    ensures arena.nextSymbol <= ARENA_SIZE
    ensures progress == Got ==>
      && arena.Sound() && decoder.Ready()
      && Bottomed(arena.symbols[..], arena.places, predicted, order, 0, k, bottom)
    ensures exact ==> Finds(r, arena.symbols[..], arena.places, m, predicted, progress, value,
      Coder(decoder.low, decoder.range), decoder.pos, k, 0, bottom)
  {
    hide Seeking, TableOk, Total, Before, Mass, Encode, Fits, Lookup, Open, Grown, Leveled, Reached, Bottomed,
      Steady, Normal, Due, Visits, Sown, Visited, BottomDone, Window, ReadFrom, Read, ReadingOn;
    ghost var s0, ps0, c, pos := arena.symbols[..], arena.places, Coder(decoder.low, decoder.range), decoder.pos;
    ReachedNext(s0, ps0, predicted, order, 0, k);
    RootTotal(s0, ps0, arena.trees);
    if exact { ReadingFacts(s0, ps0, m, k, 0, predicted, r, decoder.inData, c, pos); }
    var escapes, total := arena.symbols[0].escapes, arena.symbols[0].total;
    var code := decoder.Read(total);
    if exact { ReadingCode(s0, ps0, m, k, 0, predicted, r, decoder.inData, c, pos, code); }
    bottom, value := 0, 0;
    if code < escapes {
      return AtEnd, bottom, value;
    }
    ghost var inRange := exact && code < total;
    var symbol, under, count;
    symbol, value, under, count := arena.ContextRootDecode(code - escapes, m.tables, inRange);
    ghost var s1, ps := arena.symbols[..], arena.places;
    VisitsFacts(s0, s1, ps0, ps, arena.trees, m.tables, 0, value, symbol, inRange);
    BecomesDue(s0, s1, s1, ps0, ps, arena.trees, 0, symbol, 0, count, ROOT);
    DueFacts(s1, ps, arena.trees, 0, symbol, count, ROOT);
    TotalsKept(s0, s1, ps0, ps, arena.trees, 0, symbol, ROOT.delta);
    TakeSymbol(arena, decoder, 0, symbol, value, under, count, ROOT, s0, ps0, c, m, k, predicted, inRange);
    LeveledKept(s1, arena.symbols[..], ps, 0);
    BecomesBottom(s0, arena.symbols[..], ps0, ps, predicted, order, 0, k, symbol);
    return Got, symbol, value;
  }

  lemma RootTotal(s: seq<Symbol>, ps: seq<Place>, trees: seq<Twig>)
    requires Grown(s, ps, trees, 0, 0)
    ensures |ps| >= 1 && |s| >= 1 && 0 < s[0].total < BOTTOM
  {
    GrownAt(s, ps, trees, 0, 0, 0);
  }

  lemma SeekBegins(s: seq<Symbol>, ps: seq<Place>, m: Model, predicted: nat)
    requires Held(s, ps, m, predicted)
    ensures Seeking(s, ps, m, 0, predicted, predicted) && ModelOk(m)
  {
  }

  lemma LookupFits(t: Table, p: Params, code: nat)
    requires TableOk(t, p) && KnownParams(p) && t.escapes <= code < Total(t, p)
    ensures Fits(SlotOf(t, p, Lookup(t, p, code)))
  {
  }

  /** What the decoding of a byte comes to, where its codes are in range. */
  ghost predicate Decodes(r: Reading, s: seq<Symbol>, ps: seq<Place>, m: Model, progress: Progress, value: Byte,
                          c: Coder, pos: nat, k: nat, deepest: nat) {
    match r
    case Found(v, depth, c', pos') =>
      && progress == Got && value == v && k == depth && c == c' && pos == pos'
      && Coded(s, ps, m, v, depth, deepest)
    case End => progress == AtEnd
    case Rejected => progress == Corrupt
    case OutOfRange => true
  }

  /** The decoder's work on one byte: find it, then let the skipped contexts learn it. */
  method DecodeByte(arena: ContextArena, decoder: RangeDecoder, predicted: nat, ghost order: nat, ghost m: Model,
                    ghost r: Reading, ghost exact: bool)
      returns (progress: Progress, value: Byte, deepest: nat, ghost k: nat)
    requires arena.Sound() && Predicts(arena.symbols[..], arena.places, predicted, order) && decoder.Ready()
    requires exact ==>
      && Held(arena.symbols[..], arena.places, m, predicted) && Normal(Coder(decoder.low, decoder.range))
      && ModelOk(m)
      && r == ReadFrom(m.tables, m.history, 0, decoder.inData, Coder(decoder.low, decoder.range), decoder.pos)
    modifies arena, arena.symbols, decoder
    ensures arena.nextSymbol <= ARENA_SIZE
    ensures progress == Got ==>
      && arena.Sound() && decoder.Ready() && Leveled(arena.symbols[..], arena.places, 0)
      && IsNode(arena.places, deepest) && |arena.places[deepest].path| == order + 1
    ensures exact ==> Decodes(r, arena.symbols[..], arena.places, m, progress, value, Coder(decoder.low, decoder.range),
      decoder.pos, k, deepest)
  {
    hide Held, BottomDone, Coded, Normal, ReadFrom, Window, Grown, Leveled, Predicts, Bottomed, Seeking, Steady;
    if exact { SeekBegins(arena.symbols[..], arena.places, m, predicted); }
    var context, bottom;
    progress, context, bottom, value, k := FindByte(arena, decoder, predicted, order, m, r, exact);
    deepest := 0;
    if progress == Got {
      deepest := PatchContexts(arena, predicted, context, bottom, value, order, m, k, exact && r.Found?);
    }
  }

  /** enet_range_coder_decompress, to a buffer of limited size. Whatever the stream, it ends, stays within the
      buffer and the arena, and never divides by 0; and as long as no code above the root's total is read it writes
      exactly the bytes the stream stands for, or returns 0 when they do not fit or a subcontext rejects a code. */
  method Decompress(arena: ContextArena, input: seq<Byte>, outData: array<Byte>) returns (size: nat)
    requires arena.symbols.Length == ARENA_SIZE && outData as object != arena.symbols
    modifies arena, arena.symbols, outData
    ensures size <= outData.Length && (input != [] ==> arena.nextSymbol <= ARENA_SIZE)
    ensures match Decompressed(input, outData.Length)
      case Bytes(bytes) => outData[..size] == bytes
      case Refused => size == 0
      case Unspecified => true
  {
    hide Held, Coded, Decoded, Normal, ReadFrom, Window, Advance, Decompressed, Prepended, TableOk,
      RangeDecoder.AtWindow, ContextArena.Ready, Parents, Grown, Leveled, Predicts, Steady;
    size := 0;
    ghost var whole, exact := Decompressed(input, outData.Length), true;
    DecompressedBegins(input, outData.Length);
    if |input| <= 0 { return; }
    arena.CreateRoot();
    RootHeld(arena);
    InitialModelOk();
    RootPredicts(arena.symbols[..], arena.places);
    var decoder := new RangeDecoder(input);
    var predicted: nat, order: nat := 0, 0;
    ghost var m := INITIAL;
    while true
      invariant size <= outData.Length && decoder.Ready() && decoder.inData == input && fresh(decoder)
      invariant arena.Sound() && Predicts(arena.symbols[..], arena.places, predicted, order)
      invariant exact ==>
        && order == |m.history| && ModelOk(m) && Held(arena.symbols[..], arena.places, m, predicted)
        && Normal(Coder(decoder.low, decoder.range))
        && whole == Prepended(outData[..size],
             Decoded(m, Coder(decoder.low, decoder.range), input, decoder.pos, outData.Length - size))
      invariant !exact ==> whole == Unspecified
      decreases outData.Length - size
    {
      ghost var c, pos, out, limit := Coder(decoder.low, decoder.range), decoder.pos, outData[..size],
        outData.Length - size;
      ghost var r := if exact then ReadFrom(m.tables, m.history, 0, input, c, pos) else OutOfRange;
      if exact { DecodedStep(m, c, input, pos, limit, out); }
      PredictsOrder(arena.symbols[..], arena.places, predicted, order);
      var progress, value, deepest;
      ghost var k;
      progress, value, deepest, k := DecodeByte(arena, decoder, predicted, order, m, r, exact);
      exact := exact && r != OutOfRange;
      match progress
      case AtEnd => return;
      case Corrupt => return 0;
      case Got =>
        if size >= outData.Length { return 0; }
        outData[size] := value;
        size := size + 1;
        assert outData[..size] == out + [value];
        predicted, order := NextContext(arena, deepest, order, m, k, value, exact);
        if exact { m := Advance(m, k, value); }
    }
  }

  lemma PredictsOrder(s: seq<Symbol>, ps: seq<Place>, predicted: nat, order: nat)
    requires Predicts(s, ps, predicted, order)
    ensures order <= ORDER
  {
  }

  lemma RootPredicts(s: seq<Symbol>, ps: seq<Place>)
    requires |s| == ARENA_SIZE && ps == [ROOT_PLACE]
    ensures Predicts(s, ps, 0, 0)
  {
  }

  lemma DecompressedBegins(input: seq<Byte>, limit: nat)
    ensures Decompressed(input, limit) ==
      if input == [] then Bytes([]) else Prepended([], Decoded(INITIAL, START, input, 0, limit))
  {
    hide Decoded;
    var rest := Decoded(INITIAL, START, input, 0, limit);
    if rest.Bytes? { assert [] + rest.bytes == rest.bytes; }
  }

  /** Bytes already delivered in front of the outcome of the rest. */
  function Prepended(bytes: seq<Byte>, rest: Outcome): Outcome {
    match rest
    case Bytes(more) => Bytes(bytes + more)
    case Refused => Refused
    case Unspecified => Unspecified
  }

  lemma DecodedStep(m: Model, c: Coder, stream: seq<Byte>, pos: nat, limit: nat, out: seq<Byte>)
    requires ModelOk(m) && Normal(c)
    ensures var r := Prepended(out, Decoded(m, c, stream, pos, limit));
      match ReadFrom(m.tables, m.history, 0, stream, c, pos)
      case End => r == Bytes(out)
      case OutOfRange => r == Unspecified
      case Rejected => r == Refused
      case Found(v, depth, next, pos') =>
        if limit == 0 then r == Refused
        else r == Prepended(out + [v], Decoded(Advance(m, depth, v), next, stream, pos', limit - 1))
  {
    hide Normal, ReadFrom, Advance;
    match ReadFrom(m.tables, m.history, 0, stream, c, pos)
    case Found(v, depth, next, pos') =>
      if limit > 0 {
        var rest := Decoded(Advance(m, depth, v), next, stream, pos', limit - 1);
        if rest.Bytes? { assert out + ([v] + rest.bytes) == out + [v] + rest.bytes; }
      }
    case End => assert out + [] == out;
    case Rejected =>
    case OutOfRange =>
  }

  /** The two methods together: what one host compresses the other gets back, through arenas with
      whatever contents earlier packets left in them. */
  method RoundTripped(sender: ContextArena, receiver: ContextArena, text: seq<Byte>,
                      packet: array<Byte>, outData: array<Byte>) returns (packed: nat, size: nat)
    requires sender != receiver && sender.symbols != receiver.symbols && packet != outData
    requires sender.symbols.Length == receiver.symbols.Length == ARENA_SIZE
    requires packet as object != sender.symbols && outData as object != receiver.symbols
    requires packet as object != receiver.symbols && outData as object != sender.symbols
    modifies sender, sender.symbols, receiver, receiver.symbols, packet, outData
    ensures packed <= packet.Length && size <= outData.Length
    ensures packed > 0 && |text| <= outData.Length ==> outData[..size] == text
    ensures packed > 0 && outData.Length < |text| ==> size == 0
  {
    packed := Compress(sender, text, packet);
    var stream := packet[..packed];
    if packed > 0 {
      if |text| <= outData.Length {
        DecompressUndoesCompress(text, outData.Length);
      } else {
        DecompressRefusesSmallLimit(text, outData.Length);
      }
      size := Decompress(receiver, stream, outData);
    } else {
      size := 0;
    }
  }
}
