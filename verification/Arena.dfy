/** The arena of enet/compress.c and the macros that walk and change it. Where the ghost parameter `exact` holds the
    arena holds the tables ts, and a contract says what becomes of them; the rest of it is true on any stream. */
module Arena {
  import opened Octets
  import opened Frequencies
  import opened PpmModel
  import opened ArenaShape
  import opened ArenaForest
  import opened ArenaHalving
  import opened ArenaSearch
  import opened ArenaTwigs
  import opened ArenaGrowth
  import opened ArenaDescent
  import opened ArenaRescale

  /** ENetRangeCoder together with nextSymbol, which the C code keeps in a local of each caller. */
  class ContextArena {
    const symbols: array<Symbol>
    var nextSymbol: nat
    ghost var places: seq<Place>
    ghost var trees: seq<Twig>

    /** What the arena keeps on any stream. */
    ghost predicate Sound()
      reads this, symbols
    {
      && symbols.Length == ARENA_SIZE && nextSymbol == |places|
      && Grown(symbols[..], places, trees, 0, 0)
    }

    /** What it keeps besides as long as it follows a model: the tables, exactly. */
    ghost predicate Ready(ts: Tables)
      reads this, symbols
    {
      && symbols.Length == ARENA_SIZE && nextSymbol == |places|
      && ArenaOk(symbols[..], places, ts)
    }

    constructor ()
      ensures symbols.Length == ARENA_SIZE && fresh(symbols)
    {
      symbols := new Symbol[ARENA_SIZE](_ => NewSymbol(0, 0));
      nextSymbol := 0;
      places, trees := [], [];
    }

    /** ENET_CONTEXT_CREATE for the root, in an arena whose old contents no longer matter. */
    method CreateRoot()
      requires symbols.Length == ARENA_SIZE
      modifies this, symbols
      ensures Sound() && Ready(map[]) && places == [ROOT_PLACE]
      ensures Parents(symbols[..], places, 0)
    {
      symbols[0] := NewSymbol(0, 0).(escapes := 1, total := 1 + VALUES);
      nextSymbol := 1;
      places, trees := [ROOT_PLACE], [Tip];
      assert Rooted(symbols[..], places, Tip, 0, 0);
      assert TableAt(map[], []) == Table(NoCounts(), 1);
      MassZero(NoCounts(), 0, VALUES);
      assert HeaderOk(symbols[0], [], map[]);
      assert LinksOk(symbols[..], places, 0);
      assert TreeOk(symbols[..], places, 0, NoCounts());
    }

    /** ENET_SYMBOL_CREATE */
    method CreateSymbol(value: Byte, count: Byte) returns (symbol: nat)
      requires symbols.Length == ARENA_SIZE && nextSymbol < ARENA_SIZE
      modifies this`nextSymbol, symbols
      ensures symbol == old(nextSymbol) && nextSymbol == symbol + 1
      ensures symbols[..] == old(symbols[..])[symbol := NewSymbol(value, count)]
    {
      symbol := nextSymbol;
      nextSymbol := nextSymbol + 1;
      symbols[symbol] := NewSymbol(value, count);
    }

    /** Creates the symbol for `value` and links it where the search for it ran out of children. */
    method CreateChild(node: nat, left: bool, value: Byte, delta: Byte, ghost context: nat, ghost ts: Tables,
                       ghost s0: seq<Symbol>, ghost exact: bool)
      returns (symbol: nat)
      requires nextSymbol == |places| < ARENA_SIZE == symbols.Length
      requires Descends(s0, symbols[..], places, trees, ts, context, value, node, exact)
      requires context < |places| == |trees| && node < |places| && delta == ParamsOf(places[context].path).delta
      requires (if left then symbols[node].left else symbols[node].right) == 0
      requires exact ==> Stops(symbols[..], node, value) && (left <==> value < symbols[node].value)
      modifies this`nextSymbol, this`places, this`trees, symbols
      ensures nextSymbol == |places| && symbol < symbols.Length && symbols[symbol].count == delta
      ensures Visits(s0, symbols[..], old(places), places, trees, ts, context, value, symbol, exact)
    {
      hide ToHalf, Visits, Descends, Attached;
      ghost var ps, ts0, s := places, trees, symbols[..];
      symbol := CreateSymbol(value, delta);
      if left {
        symbols[node] := symbols[node].(under := ToHalf(symbols[node].under + delta), left := symbol - node);
      } else {
        symbols[node] := symbols[node].(right := symbol - node);
      }
      places := places + [Gap(s, ps, context, value, node)];
      trees := trees[context := Attached(trees[context], node, left, symbol)] + [Tip];
      DescendCreates(s0, s, symbols[..], ps, places, ts0, ts, context, value, node, left, delta, exact);
    }

    /** The first symbol of a context. */
    method CreateFirst(context: nat, value: Byte, delta: Byte, ghost ts: Tables, ghost exact: bool)
      returns (symbol: nat)
      requires Sound() && context < |places| < ARENA_SIZE && symbols[context].symbols == 0
      requires delta == ParamsOf(places[context].path).delta && (exact ==> Open(symbols[..], places, ts, context))
      modifies this`nextSymbol, this`places, this`trees, symbols
      ensures nextSymbol == |places| && symbol < symbols.Length && symbols[symbol].count == delta
      ensures Visits(old(symbols[..]), symbols[..], old(places), places, trees, ts, context, value, symbol, exact)
      ensures exact ==> var t, p := TableAt(ts, old(places[context].path)), ParamsOf(old(places[context].path));
        |t.counts| == VALUES && t.counts[value] == 0 && Before(t, p, value) == value * p.minimum
    {
      hide Visits, Grown, Open, Mass;
      ghost var s0, ps, trees0 := symbols[..], places, trees;
      DescendBegins(s0, ps, trees, ts, context, value, exact);
      symbol := CreateSymbol(value, delta);
      symbols[context] := symbols[context].(symbols := symbol - context);
      places := places + [Place(context, 0, VALUES, places[context].path + [value])];
      trees := trees[context := Fork(symbol, Tip, Tip)] + [Tip];
      PlantsFirst(s0, symbols[..], ps, places, trees0, ts, context, value, delta, exact);
    }

    /** ENET_CONTEXT_ENCODE: counts `value` in the context's tree and reports where its slot was. */
    method ContextEncode(context: nat, value: Byte, p: Params, ghost ts: Tables, ghost exact: bool)
      returns (symbol: nat, under: nat, count: nat)
      requires Sound() && context < |places| < ARENA_SIZE && p == ParamsOf(places[context].path)
      requires exact ==> Open(symbols[..], places, ts, context)
      modifies this`nextSymbol, this`places, this`trees, symbols
      ensures nextSymbol == |places|
      ensures symbol < symbols.Length && symbols[symbol].count + p.minimum == count + p.delta
      ensures Visits(old(symbols[..]), symbols[..], old(places), places, trees, ts, context, value, symbol, exact)
      ensures exact ==> var t := TableAt(ts, old(places[context]).path);
        |t.counts| == VALUES && under == Before(t, p, value) && count == t.counts[value] + p.minimum
    {
      hide ToHalf, Visits, Descends, PassedAt, Mass, Before, Open, Grown;
      ghost var s0, ps, trees0 := symbols[..], places, trees;
      DescendBegins(s0, ps, trees, ts, context, value, exact);
      under := value * p.minimum;
      count := p.minimum;
      if symbols[context].symbols == 0 {
        symbol := CreateFirst(context, value, p.delta, ts, exact);
        return;
      }
      var node := context + symbols[context].symbols;
      while true
        invariant nextSymbol == |places| && places == ps && trees == trees0 && count == p.minimum
        invariant Descends(s0, symbols[..], ps, trees, ts, context, value, node, exact)
        invariant exact ==> under == value * p.minimum + PassedAt(ps, ts, context, node)
        decreases ARENA_SIZE - node
      {
        ghost var s := symbols[..];
        DescendFacts(s0, s, ps, trees, ts, context, value, node, exact);
        var here := symbols[node];
        if value < here.value {
          if here.left != 0 {
            symbols[node] := here.(under := ToHalf(here.under + p.delta));
            DescendLeft(s0, s, symbols[..], ps, trees, ts, context, value, node, exact);
            node := node + here.left;
            continue;
          }
          if exact { DescendStops(s0, s, ps, trees, ts, context, value, node); }
          symbol := CreateChild(node, true, value, p.delta, context, ts, s0, exact);
        } else if value > here.value {
          under := ToHalf(under + here.under);
          if here.right != 0 {
            DescendRight(s0, s, ps, trees, ts, context, value, node, exact);
            node := node + here.right;
            continue;
          }
          if exact { DescendStops(s0, s, ps, trees, ts, context, value, node); }
          symbol := CreateChild(node, false, value, p.delta, context, ts, s0, exact);
        } else {
          count := count + here.count;
          under := ToHalf(under + here.under - here.count);
          symbols[node] := here.(under := ToHalf(here.under + p.delta), count := here.count + p.delta);
          symbol := node;
          DescendFinds(s0, s, symbols[..], ps, trees, ts, context, value, node, p.delta, exact);
        }
        break;
      }
    }

    /** enet_symbol_rescale: halves the counts in the tree that begins with `first` and recounts what lies
        under its nodes. */
    method RescaleTree(first: nat, ghost t: Twig, ghost context: nat, ghost counts: seq<nat>, ghost exact: bool)
      returns (total: nat)
      requires Spelled(symbols[..], t) && Once(t) && t.Fork? && t.at == first
      requires HalvedWeight(symbols[..], t) < 0x1_0000
      requires exact ==> Rescalable(symbols[..], places, context, counts, first)
      modifies symbols
      ensures TreeRescaled(old(symbols[..]), symbols[..], places, t, context, counts, first, total, exact)
      decreases symbols.Length - first
    {
      hide Rescaling, TreeRescaled, Mass, Slots, Halves;
      ghost var s0, ps, rest := symbols[..], places, t;
      var symbol := first;
      total := 0;
      RescalingBegins(s0, ps, t, context, counts, exact);
      while true
        invariant rest.Fork? && symbol == rest.at
        invariant Rescaling(s0, symbols[..], ps, t, rest, context, counts, first, total, exact)
        decreases symbols.Length - symbol
      {
        ghost var s1 := symbols[..];
        RescalingFacts(s0, s1, ps, t, rest, context, counts, first, total, exact);
        var here := symbols[symbol];
        symbols[symbol] := here.(count := here.count - here.count / 2, under := here.count - here.count / 2);
        ghost var s2 := symbols[..];
        var lower := 0;
        if here.left != 0 {
          RescalingLeft(s0, s1, s2, ps, t, rest, context, counts, first, total, exact);
          lower := RescaleTree(symbol + here.left, rest.left, context, counts, exact);
        }
        ghost var s3 := symbols[..];
        RescalingSums(s0, s1, s2, s3, ps, t, rest, context, counts, first, total, lower, exact);
        if here.left != 0 {
          symbols[symbol] := symbols[symbol].(under := symbols[symbol].under + lower);
        }
        RescalingTurn(s0, s1, s2, s3, symbols[..], ps, t, rest, context, counts, first, total, lower, exact);
        total := total + symbols[symbol].under;
        if here.right == 0 { break; }
        symbol := symbol + here.right;
        rest := rest.right;
      }
    }

    /** ENET_CONTEXT_RESCALE */
    method Rescale(context: nat, p: Params, ghost hot: nat, ghost ts: Tables, ghost exact: bool)
      requires symbols.Length == ARENA_SIZE && Ripe(symbols[..], places, trees, context, hot)
      requires context < |places| && p == ParamsOf(places[context].path)
      requires exact ==>
        && Holds(symbols[..], places, ts) && places[context].path in ts
        && RaisedBounds(ts[places[context].path], p)
      modifies symbols
      ensures Grown(symbols[..], places, trees, 0, 0)
      ensures exact ==>
        && places[context].path in ts
        && Holds(symbols[..], places, ts[places[context].path := Rescaled(ts[places[context].path])])
      ensures forall i :: 0 <= i < ARENA_SIZE ==> symbols[i].parent == old(symbols[i].parent)
    {
      hide Mass, Placed, Holds, HalvedBelow, Rescalable, Framed, Ripe, Grown, Halves, Slots, Spelled, Once,
        RaisedBounds, HalvedWeight;
      ghost var s0, ps := symbols[..], places;
      ghost var tree := RipeTree(s0, ps, trees, context, hot);
      ghost var t := if exact then ts[places[context].path] else Table(NoCounts(), 0);
      if exact { HoldsAt(s0, ps, ts, context); }
      var total := 0;
      if symbols[context].symbols != 0 {
        if exact { WholeTreeRescalable(s0, ps, ts, context); }
        total := RescaleTree(context + symbols[context].symbols, tree, context, t.counts, exact);
      } else {
        NothingHalved(s0, tree);
        if exact { EmptyTreeMass(s0, ps, ts, context); }
      }
      ghost var s1 := symbols[..];
      HalvesKeep(s0, s1, ps, trees, context, hot);
      if exact { RescaledFits(t, p); }
      var escapes := symbols[context].escapes - symbols[context].escapes / 2;
      symbols[context] := symbols[context].(escapes := escapes, total := total + escapes + VALUES * p.minimum);
      Rescales(s0, s1, symbols[..], ps, trees, context, hot);
      if exact { ForestHalved(s0, s1, symbols[..], ps, ts, context); }
    }

    /** The end of an update: the totals of the context, and a rescale when they have grown too far. */
    method Reinforce(context: nat, count: nat, p: Params, ghost hot: nat, ghost ts: Tables, ghost v: Byte,
                     ghost exact: bool)
      requires symbols.Length == ARENA_SIZE && Grown(symbols[..], places, trees, hot, p.delta)
      requires context < |places| && p == ParamsOf(places[context].path) && context < |trees|
      requires hot in Slots(trees[context]) && hot < |symbols[..]| && symbols[hot].count + p.minimum == count + p.delta
      requires exact ==>
        && Counted(symbols[..], places, ts, context, v)
        && |TableAt(ts, places[context].path).counts| == VALUES
        && count == TableAt(ts, places[context].path).counts[v] + p.minimum
      modifies symbols
      ensures Grown(symbols[..], places, trees, 0, 0)
      ensures exact ==> ArenaOk(symbols[..], places, LearnAt(ts, places[context].path, v))
      ensures forall i :: 0 <= i < ARENA_SIZE ==> symbols[i].parent == old(symbols[i].parent)
    {
      hide Mass, Placed, Holds, Framed, Forest, Known, Grown, Ripe, Slots, Counted, RaisedAt, Rescaled, LearnAt, Total;
      ghost var s0, ps, c := symbols[..], places, places[context].path;
      GrownTotals(s0, ps, trees, hot, p.delta, context);
      if exact { ReinforceBegins(s0, ps, ts, context, v, count, p); }
      ghost var escape := if p.minimum == 0 && count <= 0 then ESCAPE_DELTA else 0;
      if p.minimum == 0 && count <= 0 {
        symbols[context] := symbols[context].(escapes := symbols[context].escapes + ESCAPE_DELTA,
                                              total := symbols[context].total + ESCAPE_DELTA);
      }
      symbols[context] := symbols[context].(total := symbols[context].total + p.delta);
      Ripens(s0, symbols[..], ps, trees, context, hot, p.delta, escape);
      if exact { CountedThenTotalled(s0, symbols[..], ps, ts, context, v); }
      if count > 0xFF - 2 * p.delta + p.minimum || symbols[context].total > TOTAL_LIMIT {
        Rescale(context, p, hot, if exact then RaisedAt(ts, c, v) else ts, exact);
      } else {
        Ripened(symbols[..], ps, trees, context, hot);
      }
    }

    /** ENET_CONTEXT_TRY_DECODE: finds the value whose slot holds `code` in a subcontext's tree and
        counts it; fails when the code lies above all slots. */
    method ContextTryDecode(context: nat, code: nat, ghost ts: Tables, ghost exact: bool)
      returns (ok: bool, symbol: nat, value: Byte, under: nat, count: nat)
      requires Sound() && context < |places| && places[context].path != []
      requires exact ==> Open(symbols[..], places, ts, context)
      modifies symbols
      ensures ok ==> symbol < symbols.Length && symbols[symbol].count == count + SUBCONTEXT.delta && 1 <= count
      ensures ok ==> Visits(old(symbols[..]), symbols[..], places, places, trees, ts, context, value, symbol, exact)
      ensures exact ==> var t := TableAt(ts, places[context].path);
        && TableOk(t, SUBCONTEXT)
        && (ok <==> t.escapes + code < Total(t, SUBCONTEXT))
        && (ok ==>
              && value == Lookup(t, SUBCONTEXT, t.escapes + code)
              && under == Before(t, SUBCONTEXT, value) && count == t.counts[value])
    {
      hide ToHalf, Visits, Descends, PassedAt, Mass, Before, Total, Open, Grown, Sought, Lookup, TableOk;
      ghost var s0, ps := symbols[..], places;
      ghost var v: Byte := 0;
      if exact { v := SeeksCode(s0, ps, ts, context, code); }
      DescendBegins(s0, ps, trees, ts, context, v, exact);
      ok, symbol, value, under, count := false, 0, 0, 0, 0;
      if symbols[context].symbols == 0 {
        if exact { EmptyTotal(s0, ps, ts, context); }
        return;
      }
      var node := context + symbols[context].symbols;
      while true
        invariant Descends(s0, symbols[..], ps, trees, ts, context, v, node, exact)
        invariant exact ==> under == PassedAt(ps, ts, context, node)
        decreases ARENA_SIZE - node
      {
        ghost var s := symbols[..];
        DescendFacts(s0, s, ps, trees, ts, context, v, node, exact);
        if exact { DescendTries(s0, s, ps, trees, ts, context, v, node, code); }
        var here := symbols[node];
        var after, before := ToHalf(under + here.under), here.count;
        if code >= after {
          under := ToHalf(under + here.under);
          if here.right == 0 { return; }
          DescendRight(s0, s, ps, trees, ts, context, v, node, exact);
          node := node + here.right;
        } else if code < after - before {
          if here.left == 0 { return; }
          symbols[node] := here.(under := ToHalf(here.under + SUBCONTEXT.delta));
          DescendLeft(s0, s, symbols[..], ps, trees, ts, context, v, node, exact);
          node := node + here.left;
        } else {
          value := here.value;
          count := here.count;
          under := ToHalf(after - before);
          symbols[node] := here.(under := ToHalf(here.under + SUBCONTEXT.delta),
                                 count := here.count + SUBCONTEXT.delta);
          symbol := node;
          ok := true;
          DescendFinds(s0, s, symbols[..], ps, trees, ts, context, v, node, SUBCONTEXT.delta, exact);
          if !exact { VisitsAny(s0, symbols[..], ps, ps, trees, ts, context, v, value, symbol); }
          return;
        }
      }
    }

    /** ENET_CONTEXT_ROOT_DECODE: finds the value whose slot holds `code` in the root's tree, also
        where the tree has a gap, and counts it. A code above the root's total leads to some value and
        some sum: they are cut to their 8 and 16 bits, and the tree still grows by one symbol or count. */
    method ContextRootDecode(code: nat, ghost ts: Tables, ghost exact: bool)
      returns (symbol: nat, value: Byte, under: nat, count: nat)
      requires Sound() && |places| < ARENA_SIZE
      requires exact ==>
        && Open(symbols[..], places, ts, 0)
        && var t := TableAt(ts, []); |t.counts| == VALUES && t.escapes + code < Total(t, ROOT)
      modifies this`nextSymbol, this`places, this`trees, symbols
      ensures nextSymbol == |places|
      ensures symbol < symbols.Length && symbols[symbol].count + ROOT.minimum == count + ROOT.delta && 1 <= count
      ensures Visits(old(symbols[..]), symbols[..], old(places), places, trees, ts, 0, value, symbol, exact)
      ensures exact ==> var t := TableAt(ts, []);
        && TableOk(t, ROOT)
        && value == Lookup(t, ROOT, t.escapes + code)
        && under == Before(t, ROOT, value) && count == t.counts[value] + ROOT.minimum
    {
      hide ToHalf, Visits, Descends, PassedAt, Mass, Before, Total, Open, Grown, SlotHolds, Lookup, TableOk, ValueAbove,
        SlotStart;
      ghost var s0, ps, trees0 := symbols[..], places, trees;
      RootIs(s0, ps, trees);
      ghost var v: Byte := 0;
      if exact { v := RootSeeksCode(s0, ps, ts, code); }
      DescendBegins(s0, ps, trees, ts, 0, v, exact);
      if symbols[0].symbols == 0 {
        if exact { EmptyRootValue(s0, ps, ts, 0, v, code); }
        value, under := ValueAbove(-1, code), SlotStart(code, code);
        count := ROOT.minimum;
        symbol := CreateFirst(0, value, ROOT.delta, ts, exact);
        return;
      }
      var node: nat := symbols[0].symbols;
      under := 0;
      while true
        invariant nextSymbol == |places| && places == ps && trees == trees0
        invariant Descends(s0, symbols[..], ps, trees, ts, 0, v, node, exact)
        invariant exact ==> under == PassedAt(ps, ts, 0, node)
        decreases ARENA_SIZE - node
      {
        ghost var s := symbols[..];
        DescendFacts(s0, s, ps, trees, ts, 0, v, node, exact);
        if exact { DescendInRoot(s0, s, ps, trees, ts, v, node, code); }
        var here := symbols[node];
        var after := ToHalf(under + here.under + (here.value + 1) * ROOT.minimum);
        var before := here.count + ROOT.minimum;
        if code >= after && here.right != 0 {
          under := ToHalf(under + here.under);
          DescendRight(s0, s, ps, trees, ts, 0, v, node, exact);
          node := node + here.right;
        } else if code < after - before && here.left != 0 {
          symbols[node] := here.(under := ToHalf(here.under + ROOT.delta));
          DescendLeft(s0, s, symbols[..], ps, trees, ts, 0, v, node, exact);
          node := node + here.left;
        } else {
          symbol, value, under, count := RootDecodeEnds(node, code, after, v, ts, s0, exact);
          return;
        }
      }
    }

    /** The root's search ends: at the node whose slot holds the code, or in the gap on one side of it. */
    method RootDecodeEnds(node: nat, code: nat, after: nat, ghost v: Byte, ghost ts: Tables, ghost s0: seq<Symbol>,
                          ghost exact: bool)
      returns (symbol: nat, value: Byte, under: nat, count: nat)
      requires nextSymbol == |places| < ARENA_SIZE == symbols.Length && 1 <= |places| && places[0].path == []
      requires Descends(s0, symbols[..], places, trees, ts, 0, v, node, exact) && node < |places|
      requires code >= after ==> symbols[node].right == 0
      requires code < after - (symbols[node].count + ROOT.minimum) ==> symbols[node].left == 0
      requires exact ==>
        && |TableAt(ts, []).counts| == VALUES && SlotHolds(TableAt(ts, []), ROOT, code, v)
        && after == PassedAt(places, ts, 0, node) + symbols[node].under + symbols[node].value + 1 < 0x1_0000
      modifies this`nextSymbol, this`places, this`trees, symbols
      ensures nextSymbol == |places|
      ensures symbol < symbols.Length && symbols[symbol].count + ROOT.minimum == count + ROOT.delta && 1 <= count
      ensures Visits(s0, symbols[..], old(places), places, trees, ts, 0, value, symbol, exact)
      ensures exact ==> RootGives(ts, v, value, under, count)
    {
      hide ToHalf, Visits, Descends, PassedAt, Mass, Before, SlotHolds, RootGives, ValueAbove, ValueBelow, SlotStart;
      ghost var s, ps := symbols[..], places;
      DescendFacts(s0, s, ps, trees, ts, 0, v, node, exact);
      if exact { DescendInRoot(s0, s, ps, trees, ts, v, node, code); }
      var here := symbols[node];
      var before := here.count + ROOT.minimum;
      count := ROOT.minimum;
      if code >= after {
        if exact { RootGivesGap(ts, v, code); }
        value, under := ValueAbove(here.value, code - after), SlotStart(code, code - after);
        if !exact { DescendsAny(s0, s, ps, trees, ts, 0, v, value, node); }
        symbol := CreateChild(node, false, value, ROOT.delta, 0, ts, s0, exact);
      } else if code < after - before {
        if exact { RootGivesGap(ts, v, code); }
        value, under := ValueBelow(here.value, after - before - code - 1), SlotStart(code, after - before - code - 1);
        if !exact { DescendsAny(s0, s, ps, trees, ts, 0, v, value, node); }
        symbol := CreateChild(node, true, value, ROOT.delta, 0, ts, s0, exact);
      } else {
        value := here.value;
        count := count + here.count;
        under := ToHalf(after - before);
        symbols[node] := here.(under := ToHalf(here.under + ROOT.delta), count := here.count + ROOT.delta);
        symbol := node;
        DescendFinds(s0, s, symbols[..], ps, trees, ts, 0, v, node, ROOT.delta, exact);
        if exact { RootGivesFound(ts, v, under, here.count); }
        if !exact { VisitsAny(s0, symbols[..], ps, ps, trees, ts, 0, v, value, symbol); }
      }
    }

    /** `* parent = symbol`: what every step of the context loops does with the symbol it found. */
    method SetParent(child: nat, symbol: Half)
      requires child < symbols.Length
      modifies symbols
      ensures symbols[..] == old(symbols[..])[child := old(symbols[child]).(parent := symbol)]
    {
      symbols[child] := symbols[child].(parent := symbol);
    }
  }

  /** What bringing the totals up to date comes to, with and without a rescale. */
  lemma ReinforceBegins(s: seq<Symbol>, ps: seq<Place>, ts: Tables, c: nat, v: Byte, count: nat, p: Params)
    requires Counted(s, ps, ts, c, v) && c < |ps| && p == ParamsOf(ps[c].path)
    requires |TableAt(ts, ps[c].path).counts| == VALUES && count == TableAt(ts, ps[c].path).counts[v] + p.minimum
    ensures TablesOk(ts) && c < |s|
    ensures var path := ps[c].path; var t := TableAt(ts, path); var raised := RaisedAt(ts, path, v);
      && s[c].escapes == t.escapes && s[c].total == Total(t, p)
      && path in raised && RaisedBounds(raised[path], p)
      && raised[path].escapes == t.escapes + (if p.minimum == 0 && count <= 0 then ESCAPE_DELTA else 0)
      && Total(raised[path], p) == Total(t, p) + p.delta + (if p.minimum == 0 && count <= 0 then ESCAPE_DELTA else 0)
      && LearnAt(ts, path, v) ==
           if count > 0xFF - 2 * p.delta + p.minimum || Total(raised[path], p) > TOTAL_LIMIT
           then raised[path := Rescaled(raised[path])] else raised
  {
    hide Mass, Placed, Forest, Known;
    TableAtOk(ts, ps[c].path);
    CountedFacts(s, ps, ts, c, v);
    var t := TableAt(ts, ps[c].path);
    RaisedFits(t, p, v);
    TotalRaised(t, p, v);
    hide Total, Raised, Rescaled;
    if count > 0xFF - 2 * p.delta + p.minimum || Total(Raised(t, p, v), p) > TOTAL_LIMIT {
      assert RaisedAt(ts, ps[c].path, v)[ps[c].path := Rescaled(Raised(t, p, v))] == LearnAt(ts, ps[c].path, v);
    }
  }

  /** The value that a code names by its distance behind a node's slot, in 8 bits. */
  function ValueAbove(value: int, distance: nat): (v: Byte)
    ensures v == (value + 1 + distance) % 0x100
  {
    (value + 1 + distance / ROOT.minimum) % 0x100
  }

  /** And in front of it. */
  function ValueBelow(value: int, distance: nat): (v: Byte)
    ensures v == (value - 1 - distance) % 0x100
  {
    (value - 1 - distance / ROOT.minimum) % 0x100
  }

  /** Where the slot of that value begins, in 16 bits. */
  function SlotStart(code: nat, distance: nat): (under: Half)
    ensures under == ToHalf(code)
  {
    ToHalf(code - distance % ROOT.minimum)
  }

  /** What a search of the root ends with, in terms of the root's table. */
  ghost predicate RootGives(ts: Tables, v: Byte, value: Byte, under: nat, count: nat) {
    var t := TableAt(ts, []);
    && |t.counts| == VALUES && value == v && under == Before(t, ROOT, v) && count == t.counts[v] + ROOT.minimum
  }

  lemma RootGivesGap(ts: Tables, v: Byte, code: nat)
    requires |TableAt(ts, []).counts| == VALUES
    requires Before(TableAt(ts, []), ROOT, v) == code && TableAt(ts, []).counts[v] == 0
    ensures RootGives(ts, v, v, code, ROOT.minimum)
  {
  }

  lemma RootGivesFound(ts: Tables, v: Byte, under: nat, count: nat)
    requires |TableAt(ts, []).counts| == VALUES
    requires Before(TableAt(ts, []), ROOT, v) == under && TableAt(ts, []).counts[v] == count
    ensures RootGives(ts, v, v, under, count + ROOT.minimum)
  {
  }
}
