/** The loop over the contexts of one byte, from the longest to the root: what holds before and
    after each step, for the encoder and for the decoder's patch loop alike. */
module ContextWalk {
  import opened Octets
  import opened RangeCoder
  import opened Frequencies
  import opened PpmModel
  import opened ArenaShape
  import opened ArenaForest
  import opened ArenaSearch
  import opened ArenaParents
  import opened ArenaLevels

  /** The arena holds the model, everything is linked, and `predicted` stands for its history. */
  ghost predicate Held(s: seq<Symbol>, ps: seq<Place>, m: Model, predicted: nat) {
    && ModelOk(m) && ArenaOk(s, ps, m.tables)
    && |s| == ARENA_SIZE && |ps| == m.used && predicted < |ps|
    && ps[predicted].path == m.history
    && Linked(s, ps, 0)
  }

  /** What a walk needs of the model it started from. */
  ghost predicate WalkOk(m: Model) {
    TablesOk(m.tables) && |m.history| <= ORDER
  }

  /** The first `depth` contexts have learned v; `context` is the next, `open` the last one's symbol. */
  ghost predicate Walking(s: seq<Symbol>, ps: seq<Place>, m: Model, v: Byte, depth: nat, context: nat, open: nat,
                          steps: nat) {
    && WalkOk(m) && depth <= |m.history|
    && depth <= steps <= |m.history| + 1 && m.used + steps <= ARENA_SIZE
    && ArenaOk(s, ps, LearnChain(m.tables, m.history, depth, v))
    && |s| == ARENA_SIZE && |ps| == m.used + PpmModel.Created(m.tables, m.history, depth, v)
    && context < |ps| && ps[context].path == m.history[depth..]
    && Linked(s, ps, open)
    && (if depth == 0 then open == 0
        else IsNode(ps, open) && ps[open].path == m.history[depth - 1..] + [v])
  }

  /** The walk ended after depth + 1 contexts; `last` is the last one's symbol. */
  ghost predicate Walked(s: seq<Symbol>, ps: seq<Place>, m: Model, v: Byte, depth: nat, last: nat) {
    && WalkOk(m) && depth <= |m.history|
    && ArenaOk(s, ps, LearnChain(m.tables, m.history, depth + 1, v))
    && |s| == ARENA_SIZE && |ps| == m.used + PpmModel.Created(m.tables, m.history, depth + 1, v)
    && IsNode(ps, last) && ps[last].path == m.history[depth..] + [v]
  }

  lemma WalkBegins(s: seq<Symbol>, ps: seq<Place>, m: Model, v: Byte, predicted: nat)
    requires Held(s, ps, m, predicted)
    ensures Walking(s, ps, m, v, 0, predicted, 0, |m.history| + 1)
  {
  }

  /** The context reached has not learned anything yet in this walk. */
  lemma NotLearnedYet(m: Model, v: Byte, depth: nat)
    requires WalkOk(m) && depth <= |m.history|
    ensures TableAt(LearnChain(m.tables, m.history, depth, v), m.history[depth..])
         == TableAt(m.tables, m.history[depth..])
    ensures Seen(LearnChain(m.tables, m.history, depth, v), m.history[depth..], v)
        <==> Seen(m.tables, m.history[depth..], v)
  {
    hide Learn, TableOk;
    forall i | 0 <= i < depth ensures m.history[depth..] != m.history[i..] {
      assert |m.history[depth..]| != |m.history[i..]|;
    }
    LearnChainAt(m.tables, m.history, depth, v, m.history[depth..]);
  }

  lemma WalkFacts(s: seq<Symbol>, ps: seq<Place>, m: Model, v: Byte, depth: nat, context: nat, open: nat, steps: nat)
    requires Walking(s, ps, m, v, depth, context, open, steps)
    ensures depth < steps ==> Open(s, ps, LearnChain(m.tables, m.history, depth, v), context)
    ensures context < |ps| <= |s| && ps[context].path == m.history[depth..]
    ensures HeaderOk(s[context], m.history[depth..], m.tables)
    ensures context == 0 <==> depth == |m.history|
    ensures context != open || depth == 0
    ensures depth < |m.history| ==> ParentOk(s, ps, context)
  {
    hide ArenaOk, HeaderOk, ParentOk, Linked, LearnChain;
    WalkOpen(s, ps, m, v, depth, context, open, steps);
    WalkHeader(s, ps, m, v, depth, context, open, steps);
    WalkRoot(s, ps, m, v, depth, context, open, steps);
    if depth < |m.history| { LinkedAt(s, ps, open, context); }
  }

  lemma WalkOpen(s: seq<Symbol>, ps: seq<Place>, m: Model, v: Byte, depth: nat, context: nat, open: nat, steps: nat)
    requires Walking(s, ps, m, v, depth, context, open, steps)
    ensures depth < steps ==> Open(s, ps, LearnChain(m.tables, m.history, depth, v), context)
    ensures context < |ps| <= |s|
  {
    hide ArenaOk, Linked, LearnChain, WalkOk, PpmModel.Created;
    WalkFits(s, ps, m, v, depth, context, open, steps);
  }

  /** What a walk says of its slots' levels. */
  lemma WalkLevels(s: seq<Symbol>, ps: seq<Place>, m: Model, v: Byte, depth: nat, context: nat, open: nat, steps: nat)
    requires Walking(s, ps, m, v, depth, context, open, steps)
    ensures depth <= |m.history| && context < |ps| <= |s| == ARENA_SIZE && ps[context].path == m.history[depth..]
    ensures Leveled(s, ps, open) && (depth < steps ==> |ps| < ARENA_SIZE)
    ensures open == 0 || (IsNode(ps, open) && |ps[open].path| == |ps[context].path| + 2)
  {
    hide ArenaOk, Linked, LearnChain, TablesOk, PpmModel.Created, Leveled;
    WalkFits(s, ps, m, v, depth, context, open, steps);
    WalkOpen(s, ps, m, v, depth, context, open, steps);
    ArenaPlaced(s, ps, LearnChain(m.tables, m.history, depth, v));
    LinkedIsLeveled(s, ps, open);
  }

  lemma WalkFits(s: seq<Symbol>, ps: seq<Place>, m: Model, v: Byte, depth: nat, context: nat, open: nat, steps: nat)
    requires Walking(s, ps, m, v, depth, context, open, steps)
    ensures WalkOk(m) && |ps| <= m.used + depth && |m.history| <= ORDER
  {
    hide ArenaOk, Linked, LearnChain, TablesOk, PpmModel.Created;
    CreatedBound(m.tables, m.history, depth, v);
  }

  lemma WalkRoot(s: seq<Symbol>, ps: seq<Place>, m: Model, v: Byte, depth: nat, context: nat, open: nat, steps: nat)
    requires Walking(s, ps, m, v, depth, context, open, steps)
    ensures context == 0 <==> depth == |m.history|
    ensures context != open || depth == 0
  {
    hide ArenaOk, Linked, LearnChain;
    ArenaPlaced(s, ps, LearnChain(m.tables, m.history, depth, v));
    RootPath(s, ps, context);
    if depth > 0 {
      assert |ps[open].path| == |m.history[depth - 1..]| + 1;
      assert |ps[context].path| == |m.history| - depth;
    }
  }

  lemma WalkHeader(s: seq<Symbol>, ps: seq<Place>, m: Model, v: Byte, depth: nat, context: nat, open: nat, steps: nat)
    requires Walking(s, ps, m, v, depth, context, open, steps)
    ensures context < |ps| <= |s| && HeaderOk(s[context], m.history[depth..], m.tables)
  {
    hide Learn, TableOk, Forest, TreeOk, Known, Total, LearnChain;
    NotLearnedYet(m, v, depth);
    assert HeaderOk(s[context], ps[context].path, LearnChain(m.tables, m.history, depth, v));
  }

  lemma ArenaPlaced(s: seq<Symbol>, ps: seq<Place>, ts: Tables)
    requires ArenaOk(s, ps, ts)
    ensures Placed(s, ps)
  {
  }

  lemma LinkedAt(s: seq<Symbol>, ps: seq<Place>, open: nat, i: nat)
    requires Linked(s, ps, open) && IsNode(ps, i) && i != open
    ensures |ps| <= |s| && ParentOk(s, ps, i)
  {
  }

  lemma RootPath(s: seq<Symbol>, ps: seq<Place>, context: nat)
    requires Placed(s, ps) && context < |ps|
    ensures context == 0 <==> ps[context].path == []
  {
    if context != 0 { assert PlaceOk(s, ps, context); }
  }

  /** The slots for v from here on, by what the tables say of it. */
  lemma SlotsAhead(m: Model, v: Byte, depth: nat)
    requires WalkOk(m) && depth <= |m.history|
    ensures var t := TableAt(m.tables, m.history[depth..]); var p := ParamsOf(m.history[depth..]);
      && TableOk(t, p)
      && SlotsFrom(m.tables, m.history, depth, v) ==
         (if depth == |m.history| || t.counts[v] > 0 then [SlotOf(t, p, v)]
          else if CanEscape(t, p) then [EscapeSlot(t, p)] + SlotsFrom(m.tables, m.history, depth + 1, v)
          else SlotsFrom(m.tables, m.history, depth + 1, v))
      && (depth == |m.history| || t.counts[v] > 0 ==> Fits(SlotOf(t, p, v)))
      && (CanEscape(t, p) ==> Fits(EscapeSlot(t, p)))
  {
    hide Mass, Total, Before;
    TableAtOk(m.tables, m.history[depth..]);
    var t, p := TableAt(m.tables, m.history[depth..]), ParamsOf(m.history[depth..]);
    if CanEscape(t, p) { EscapeFits(t, p); }
    if depth == |m.history| || t.counts[v] > 0 { SlotFits(t, p, v); }
  }

  /** Between counting v in a context and bringing its totals up to date. */
  ghost predicate Counting(s: seq<Symbol>, ps: seq<Place>, m: Model, v: Byte, depth: nat, context: nat, symbol: nat)
    requires WalkOk(m) && depth <= |m.history|
  {
    && |s| == ARENA_SIZE
    && Counted(s, ps, LearnChain(m.tables, m.history, depth, v), context, v)
    && Linked(s, ps, symbol)
    && (Seen(m.tables, m.history[depth..], v) || depth == |m.history| ==> Linked(s, ps, 0))
    && IsNode(ps, symbol) && ps[symbol].path == m.history[depth..] + [v]
    && |ps| == m.used + PpmModel.Created(m.tables, m.history, depth + 1, v)
    && context < |ps| && ps[context].path == m.history[depth..]
  }

  /** Visiting and linking: what is left to do for this context is bring its totals up to date. */
  lemma WalkVisited(s: seq<Symbol>, s1: seq<Symbol>, s2: seq<Symbol>, ps: seq<Place>, ps': seq<Place>,
                    m: Model, v: Byte, depth: nat, context: nat, open: nat, symbol: Half, steps: nat)
    requires WalkOk(m) && depth <= |m.history| && Walking(s, ps, m, v, depth, context, open, steps)
    requires Visited(s, s1, ps, ps', LearnChain(m.tables, m.history, depth, v), context, v, symbol)
    requires if depth == 0 then s2 == s1 else Relinked(s1, s2, open, symbol)
    ensures Counting(s2, ps', m, v, depth, context, symbol)
  {
    hide Learn, TableOk, ArenaOk, Counted, LearnChain, Linked, Raised, Total, Visited, Walking;
    WalkPaths(s, s1, ps, ps', m, v, depth, context, open, symbol, steps);
    WalkCounted(s, s1, s2, ps, ps', m, v, depth, context, open, symbol, steps);
    WalkLinked(s, s1, s2, ps, ps', m, v, depth, context, open, symbol, steps);
  }

  /** Where the walk's slots stand once one more context has been visited. */
  lemma WalkPaths(s: seq<Symbol>, s1: seq<Symbol>, ps: seq<Place>, ps': seq<Place>,
                  m: Model, v: Byte, depth: nat, context: nat, open: nat, symbol: Half, steps: nat)
    requires WalkOk(m) && depth <= |m.history| && Walking(s, ps, m, v, depth, context, open, steps)
    requires Visited(s, s1, ps, ps', LearnChain(m.tables, m.history, depth, v), context, v, symbol)
    ensures |ps'| <= |s1| == |s| == ARENA_SIZE
    ensures IsNode(ps', symbol) && ps'[symbol].path == m.history[depth..] + [v]
    ensures |ps'| == m.used + PpmModel.Created(m.tables, m.history, depth + 1, v)
    ensures context < |ps'| && ps'[context].path == m.history[depth..]
    ensures if depth == 0 then open == 0
      else IsNode(ps', open) && ps'[open].path != [] && ps'[open].path[1..] == ps'[symbol].path
    ensures if depth == 0 then open == 0 else IsNode(ps, open) && ps[open].path == m.history[depth - 1..] + [v]
    ensures open != symbol && Linked(s, ps, open)
    ensures Seen(m.tables, m.history[depth..], v) ==> symbol < |ps|
    ensures symbol >= |ps| ==> symbol == |ps| && s1[symbol].parent == 0
  {
    hide Learn, TableOk, ArenaOk, Counted, LearnChain, Linked, Raised, Total, Framed;
    NotLearnedYet(m, v, depth);
    VisitedBounds(s, s1, ps, ps', LearnChain(m.tables, m.history, depth, v), context, v, symbol);
    if depth > 0 {
      assert ps[open].path == m.history[depth - 1..] + [v];
      assert ps[open].path[1..] == m.history[depth..] + [v];
      assert |ps'[symbol].path| < |ps[open].path|;
    }
  }

  lemma WalkCounted(s: seq<Symbol>, s1: seq<Symbol>, s2: seq<Symbol>, ps: seq<Place>, ps': seq<Place>,
                    m: Model, v: Byte, depth: nat, context: nat, open: nat, symbol: Half, steps: nat)
    requires WalkOk(m) && depth <= |m.history|
    requires Visited(s, s1, ps, ps', LearnChain(m.tables, m.history, depth, v), context, v, symbol)
    requires if depth == 0 then s2 == s1 else Relinked(s1, s2, open, symbol)
    ensures Counted(s2, ps', LearnChain(m.tables, m.history, depth, v), context, v)
  {
    hide Learn, TableOk, ArenaOk, Counted, LearnChain, Raised, Total, Framed;
    if depth > 0 { CountedRelinked(s1, s2, ps', LearnChain(m.tables, m.history, depth, v), context, v, open, symbol); }
  }

  lemma WalkLinked(s: seq<Symbol>, s1: seq<Symbol>, s2: seq<Symbol>, ps: seq<Place>, ps': seq<Place>,
                   m: Model, v: Byte, depth: nat, context: nat, open: nat, symbol: Half, steps: nat)
    requires WalkOk(m) && depth <= |m.history| && Walking(s, ps, m, v, depth, context, open, steps)
    requires Visited(s, s1, ps, ps', LearnChain(m.tables, m.history, depth, v), context, v, symbol)
    requires if depth == 0 then s2 == s1 else Relinked(s1, s2, open, symbol)
    ensures Linked(s2, ps', symbol)
    ensures Seen(m.tables, m.history[depth..], v) || depth == |m.history| ==> Linked(s2, ps', 0)
  {
    hide Learn, TableOk, ArenaOk, Counted, LearnChain, Linked, Raised, Total, Visited, Walking;
    var ts := LearnChain(m.tables, m.history, depth, v);
    WalkPaths(s, s1, ps, ps', m, v, depth, context, open, symbol, steps);
    LinkOpen(s, s1, s2, ps, ps', ts, context, v, symbol, open);
    if depth == |m.history| && symbol == |ps| {
      assert s2[symbol].parent == s1[symbol].parent == 0;
      WalkCounted(s, s1, s2, ps, ps', m, v, depth, context, open, symbol, steps);
      RootLinked(s2, ps', ts, context, v, symbol);
    }
  }

  /** A new symbol of the root needs no link: its parent is the root already. */
  lemma RootLinked(s: seq<Symbol>, ps: seq<Place>, ts: Tables, c: nat, v: Byte, symbol: nat)
    requires Counted(s, ps, ts, c, v) && Linked(s, ps, symbol) && IsNode(ps, symbol)
    requires ps[symbol].path == [v] && s[symbol].parent == 0
    ensures Linked(s, ps, 0)
  {
    CountedPlaced(s, ps, ts, c, v);
    hide Counted;
    assert ps[0].path == [] == ps[symbol].path[1..];
    forall i | IsNode(ps, i) ensures ParentOk(s, ps, i) {
      if i != symbol { assert ParentOk(s, ps, i); }
    }
  }

  /** With the totals done the walk goes on at the parent, or has ended. */
  lemma WalkNext(s2: seq<Symbol>, s3: seq<Symbol>, ps: seq<Place>, m: Model, v: Byte, depth: nat, context: nat,
                 symbol: nat, steps: nat)
    requires WalkOk(m) && depth <= |m.history|
    requires depth < steps <= |m.history| + 1 && m.used + steps <= ARENA_SIZE
    requires ArenaOk(s3, ps, LearnAt(LearnChain(m.tables, m.history, depth, v), m.history[depth..], v))
    requires |s3| == |s2| == ARENA_SIZE && forall i :: 0 <= i < |s2| ==> s3[i].parent == s2[i].parent
    requires |ps| == m.used + PpmModel.Created(m.tables, m.history, depth + 1, v)
    requires Linked(s2, ps, symbol) && IsNode(ps, symbol) && ps[symbol].path == m.history[depth..] + [v]
    requires context < |ps| && ps[context].path == m.history[depth..]
    ensures Walked(s3, ps, m, v, depth, symbol) && Linked(s3, ps, symbol)
    ensures Linked(s2, ps, 0) ==> Linked(s3, ps, 0)
    ensures depth < |m.history| ==>
      Walking(s3, ps, m, v, depth + 1, s3[context].parent, symbol, steps)
  {
    hide Learn, TableOk, Forest, TreeOk, Known, Headers, LearnChain;
    assert LearnChain(m.tables, m.history, depth + 1, v)
        == LearnAt(LearnChain(m.tables, m.history, depth, v), m.history[depth..], v) by { ChainStep(m, v, depth); }
    forall i | IsNode(ps, i) && i != symbol ensures ParentOk(s3, ps, i) {
      assert ParentOk(s2, ps, i);
    }
    if Linked(s2, ps, 0) {
      forall i | IsNode(ps, i) ensures ParentOk(s3, ps, i) {
        assert ParentOk(s2, ps, i);
      }
    }
    if depth < |m.history| {
      assert |ps[symbol].path| != |ps[context].path|;
      assert ps[0].path == [];
      assert ParentOk(s3, ps, context);
      assert m.history[depth..][1..] == m.history[depth + 1..];
    }
  }

  lemma ChainStep(m: Model, v: Byte, depth: nat)
    requires WalkOk(m) && depth <= |m.history|
    ensures LearnChain(m.tables, m.history, depth + 1, v)
         == LearnAt(LearnChain(m.tables, m.history, depth, v), m.history[depth..], v)
  {
  }

  /** What a step of the walk may rely on. */
  lemma StepFacts(s: seq<Symbol>, ps: seq<Place>, m: Model, v: Byte, depth: nat, context: nat, open: nat, steps: nat)
    requires Walking(s, ps, m, v, depth, context, open, steps)
    ensures WalkOk(m) && depth <= |m.history| && |s| == ARENA_SIZE
    ensures depth < steps ==> Open(s, ps, LearnChain(m.tables, m.history, depth, v), context)
    ensures context < |ps| <= |s| && ps[context].path == m.history[depth..]
    ensures context == 0 <==> depth == |m.history|
    ensures open == 0 <==> depth == 0
    ensures open < |ps|
    ensures TableAt(LearnChain(m.tables, m.history, depth, v), m.history[depth..]) ==
      TableAt(m.tables, m.history[depth..])
    ensures TableOk(TableAt(m.tables, m.history[depth..]), ParamsOf(m.history[depth..]))
    ensures Seen(m.tables, m.history[depth..], v) <==> TableAt(m.tables, m.history[depth..]).counts[v] > 0
    ensures depth == |m.history| ==> ParamsOf(m.history[depth..]) == ROOT
    ensures depth < |m.history| ==> ParamsOf(m.history[depth..]) == SUBCONTEXT
  {
    hide LearnChain, ArenaOk, Linked, TableOk, Mass, Open, HeaderOk, ParentOk;
    WalkFacts(s, ps, m, v, depth, context, open, steps);
    NotLearnedYet(m, v, depth);
    TableAtOk(m.tables, m.history[depth..]);
  }

  lemma VisitedBounds(s0: seq<Symbol>, s1: seq<Symbol>, ps0: seq<Place>, ps: seq<Place>,
                      ts: Tables, c: nat, v: Byte, symbol: nat)
    requires Visited(s0, s1, ps0, ps, ts, c, v, symbol) && |s0| == ARENA_SIZE
    ensures symbol < |ps| <= |s1| == ARENA_SIZE && ps0 <= ps && c < |ps0|
  {
    CountedPlaced(s1, ps, ts, c, v);
  }

  lemma CountedHeader(s: seq<Symbol>, ps: seq<Place>, m: Model, v: Byte, depth: nat, context: nat)
    requires WalkOk(m) && depth <= |m.history|
    requires Counted(s, ps, LearnChain(m.tables, m.history, depth, v), context, v)
    requires ps[context].path == m.history[depth..]
    ensures context < |s|
    ensures var t := TableAt(m.tables, m.history[depth..]);
      |t.counts| == VALUES && s[context].escapes == t.escapes
        && s[context].total == Total(t, ParamsOf(m.history[depth..]))
  {
    hide LearnChain, Mass, Forest, Known, Placed;
    NotLearnedYet(m, v, depth);
    CountedPlaced(s, ps, LearnChain(m.tables, m.history, depth, v), context, v);
    assert HeaderOk(s[context], ps[context].path, LearnChain(m.tables, m.history, depth, v));
  }
}
