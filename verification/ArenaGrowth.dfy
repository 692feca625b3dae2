/** What the arena keeps on any stream, also where a code above the root's total has put values out of order:
    every context's symbols form a tree of forward links, its total is its escapes and the sum of their counts,
    and nothing wraps around 16 bits. Ghost twigs are the trees. */
module ArenaGrowth {
  import opened Octets
  import opened Frequencies
  import opened PpmModel
  import opened ArenaShape
  import opened ArenaForest
  import opened ArenaTwigs

  /** Slot c as a context: its tree, and the total that comes to its counts, but for what is still due. */
  ghost predicate Rooted(s: seq<Symbol>, ps: seq<Place>, t: Twig, c: nat, due: nat)
    requires c < |ps| <= |s|
  {
    && Leads(c, s[c].symbols, t) && Spelled(s, t) && Once(t)
    && (forall i :: i in Slots(t) ==> c < i && Owns(ps, c, i))
    && s[c].total + due == s[c].escapes + VALUES * ParamsOf(ps[c].path).minimum + Weight(s, t)
  }

  /** Slot i as a node: no count but that of slot `hot` is near the end of a byte. */
  ghost predicate CountOk(s: seq<Symbol>, ps: seq<Place>, i: int, hot: nat)
    requires IsNode(ps, i) && |ps| <= |s|
  {
    && ps[i].owner < i && |ps[i].path| == |ps[ps[i].owner].path| + 1
    && 1 <= s[i].count && (i != hot ==> s[i].count <= 0xFF - ParamsOf(ps[ps[i].owner].path).delta)
  }

  ghost function DueAt(ps: seq<Place>, c: nat, hot: nat, due: nat): nat {
    if 0 < hot < |ps| && ps[hot].owner == c then due else 0
  }

  /** All of the arena. While a context learns a byte its total has `due` to come for its symbol `hot`; 0 for none. */
  ghost predicate Grown(s: seq<Symbol>, ps: seq<Place>, trees: seq<Twig>, hot: nat, due: nat) {
    && 1 <= |ps| == |trees| <= |s| && ps[0].path == []
    && (forall c {:trigger Rooted(s, ps, trees[c], c, DueAt(ps, c, hot, due))} :: 0 <= c < |ps| ==>
          Rooted(s, ps, trees[c], c, DueAt(ps, c, hot, due)))
    && (forall i {:trigger CountOk(s, ps, i, hot)} :: IsNode(ps, i) ==> CountOk(s, ps, i, hot))
    && (forall c :: 0 <= c < |ps| ==> s[c].total <= TOTAL_LIMIT)
  }

  lemma GrownAt(s: seq<Symbol>, ps: seq<Place>, trees: seq<Twig>, hot: nat, due: nat, c: nat)
    requires Grown(s, ps, trees, hot, due) && c < |ps|
    ensures |ps| == |trees| <= |s| && Rooted(s, ps, trees[c], c, DueAt(ps, c, hot, due))
    ensures IsNode(ps, c) ==> CountOk(s, ps, c, hot)
  {
    assert IsNode(ps, c) ==> CountOk(s, ps, c, hot);
  }

  /** A search changes what lies under nodes, which nothing here looks at. */
  ghost predicate SameButUnder(s: seq<Symbol>, s': seq<Symbol>) {
    |s'| == |s| && forall i :: 0 <= i < |s| ==> s'[i] == s[i].(under := s'[i].under)
  }

  lemma RootedKept(s: seq<Symbol>, s': seq<Symbol>, ps: seq<Place>, t: Twig, c: nat, due: nat)
    requires c < |ps| <= |s| == |s'| && Rooted(s, ps, t, c, due)
    requires SameTotals(s[c], s'[c]) && s[c].symbols == s'[c].symbols
    requires forall i :: i in Slots(t) ==> SameTwig(s, s', i)
    ensures Rooted(s', ps, t, c, due)
  {
    TwigKept(s, s', t);
  }

  lemma GrownUnder(s: seq<Symbol>, s': seq<Symbol>, ps: seq<Place>, trees: seq<Twig>)
    requires Grown(s, ps, trees, 0, 0) && SameButUnder(s, s')
    ensures Grown(s', ps, trees, 0, 0)
  {
    hide Rooted;
    forall c | 0 <= c < |ps| ensures Rooted(s', ps, trees[c], c, DueAt(ps, c, 0, 0)) {
      GrownAt(s, ps, trees, 0, 0, c);
      TreeSlots(s, ps, trees[c], c, 0);
      RootedKept(s, s', ps, trees[c], c, 0);
    }
    forall i | IsNode(ps, i) ensures CountOk(s', ps, i, 0) {
      assert CountOk(s, ps, i, 0);
    }
  }

  lemma TreeSlots(s: seq<Symbol>, ps: seq<Place>, t: Twig, c: nat, due: nat)
    requires c < |ps| <= |s| && Rooted(s, ps, t, c, due)
    ensures forall i :: i in Slots(t) ==> c < i && Owns(ps, c, i)
  {
  }

  /** A search through the tree of c has come to `node`. */
  ghost predicate Probes(s0: seq<Symbol>, s: seq<Symbol>, ps: seq<Place>, trees: seq<Twig>, c: nat, node: nat) {
    && Grown(s0, ps, trees, 0, 0) && SameButUnder(s0, s)
    && c < |ps| && node in Slots(trees[c])
  }

  lemma ProbeBegins(s: seq<Symbol>, ps: seq<Place>, trees: seq<Twig>, c: nat)
    requires Grown(s, ps, trees, 0, 0) && c < |ps|
    ensures |ps| == |trees| <= |s| && (s[c].symbols != 0 ==> Probes(s, s, ps, trees, c, c + s[c].symbols))
  {
    GrownAt(s, ps, trees, 0, 0, c);
  }

  /** The links at the node lead on, and its count has room for one more update. */
  lemma ProbeFacts(s0: seq<Symbol>, s: seq<Symbol>, ps: seq<Place>, trees: seq<Twig>, c: nat, node: nat)
    requires Probes(s0, s, ps, trees, c, node)
    ensures c < node < |ps| == |trees| <= |s| == |s0| && node in Slots(trees[c])
    ensures 1 <= s[node].count <= 0xFF - ParamsOf(ps[c].path).delta
    ensures s[node].left != 0 ==> node + s[node].left in Slots(trees[c]) && node + s[node].left < |ps|
    ensures s[node].right != 0 ==> node + s[node].right in Slots(trees[c]) && node + s[node].right < |ps|
  {
    GrownUnder(s0, s, ps, trees);
    NodeLinks(s, ps, trees, c, node);
  }

  lemma ProbeOn(s0: seq<Symbol>, s: seq<Symbol>, s': seq<Symbol>, ps: seq<Place>, trees: seq<Twig>, c: nat, node: nat,
                next: nat)
    requires Probes(s0, s, ps, trees, c, node) && c < |trees| && next in Slots(trees[c])
    requires s' == s || (node < |s| == |s'| && s' == s[node := s[node].(under := s'[node].under)])
    ensures Probes(s0, s', ps, trees, c, next)
  {
    hide Grown;
  }

  /** Where a search can go on from a node of the tree. */
  lemma NodeLinks(s: seq<Symbol>, ps: seq<Place>, trees: seq<Twig>, c: nat, i: nat)
    requires Grown(s, ps, trees, 0, 0) && c < |ps| && i in Slots(trees[c])
    ensures c < i < |ps| <= |s| && Owns(ps, c, i) && CountOk(s, ps, i, 0)
    ensures s[i].left != 0 ==> i + s[i].left in Slots(trees[c]) && i + s[i].left < |ps|
    ensures s[i].right != 0 ==> i + s[i].right in Slots(trees[c]) && i + s[i].right < |ps|
  {
    GrownAt(s, ps, trees, 0, 0, c);
    TwigLinks(s, trees[c], i);
    GrownAt(s, ps, trees, 0, 0, i);
  }

  /** The tree part of an update of context c: `symbol` has `count` more than it had, and the total not yet. */
  ghost predicate Sown(s0: seq<Symbol>, s: seq<Symbol>, ps0: seq<Place>, ps: seq<Place>, trees: seq<Twig>,
                       c: nat, symbol: nat, delta: nat) {
    && |s| == |s0| && c < |ps0| <= |s0| && ps0 <= ps && |ps| <= |ps0| + 1
    && Grown(s, ps, trees, symbol, delta) && symbol in Slots(trees[c])
    && (forall i :: 0 <= i < |ps0| ==> SameTotals(s0[i], s[i]))
    && (|ps0| < |ps| ==> symbol == |ps0| && s[symbol].parent == 0)
  }

  /** A count raised at a node of the tree. */
  lemma Raises(s0: seq<Symbol>, s: seq<Symbol>, s': seq<Symbol>, ps: seq<Place>, trees: seq<Twig>, c: nat, node: nat,
               delta: Byte)
    requires Probes(s0, s, ps, trees, c, node) && c < |ps| && node < |s|
    requires delta == ParamsOf(ps[c].path).delta && s[node].count + delta < 0x100
    requires |s'| == |s| && s' == s[node := s'[node]]
    requires s'[node] == s[node].(under := s'[node].under, count := s[node].count + delta)
    ensures Sown(s0, s', ps, ps, trees, c, node, delta)
  {
    hide Rooted;
    GrownUnder(s0, s, ps, trees);
    NodeLinks(s, ps, trees, c, node);
    forall d | 0 <= d < |ps| ensures Rooted(s', ps, trees[d], d, DueAt(ps, d, node, delta)) {
      GrownAt(s, ps, trees, 0, 0, d);
      TreeSlots(s, ps, trees[d], d, 0);
      if d == c {
        RootedRaised(s, s', ps, trees[d], d, node, delta);
      } else {
        RootedKept(s, s', ps, trees[d], d, 0);
      }
    }
    forall i | IsNode(ps, i) ensures CountOk(s', ps, i, node) {
      assert CountOk(s, ps, i, 0);
    }
  }

  lemma RootedRaised(s: seq<Symbol>, s': seq<Symbol>, ps: seq<Place>, t: Twig, c: nat, node: nat, delta: nat)
    requires c < |ps| <= |s| == |s'| && Rooted(s, ps, t, c, 0) && node in Slots(t) && node < |s| && c < node
    requires s' == s[node := s'[node]] && s'[node].count == s[node].count + delta
    requires s'[node].left == s[node].left && s'[node].right == s[node].right
    ensures Rooted(s', ps, t, c, delta)
  {
    TwigRaised(s, s', t, node, delta);
  }

  /** What a new symbol changes of the arena, besides the link that leads to it. */
  ghost predicate NewSlot(s: seq<Symbol>, s': seq<Symbol>, ps: seq<Place>, ps': seq<Place>, c: nat, delta: Byte) {
    && 1 <= |ps| < |s| == |s'| && c < |ps| && 1 <= delta
    && |ps'| == |ps| + 1 && ps <= ps' && ps'[|ps|].owner == c && |ps'[|ps|].path| == |ps[c].path| + 1
    && s'[|ps|] == NewSymbol(s'[|ps|].value, delta)
    && forall i :: 0 <= i < |ps| ==> SameTotals(s[i], s'[i]) && s[i].count == s'[i].count
  }

  /** The trees of the contexts that did not get the new symbol, and of the symbol itself. */
  lemma OthersRooted(s: seq<Symbol>, s': seq<Symbol>, ps: seq<Place>, ps': seq<Place>, trees: seq<Twig>, c: nat,
                     delta: Byte, d: nat)
    requires Grown(s, ps, trees, 0, 0) && NewSlot(s, s', ps, ps', c, delta) && d != c && d <= |ps|
    requires forall i :: 0 <= i < |ps| && !Owns(ps, c, i) ==> SameTwig(s, s', i)
    requires d < |ps| ==> s[d].symbols == s'[d].symbols
    ensures d < |ps| ==> Rooted(s', ps', trees[d], d, 0)
    ensures d == |ps| ==> Rooted(s', ps', Tip, d, 0)
  {
    if d < |ps| {
      GrownAt(s, ps, trees, 0, 0, d);
      TreeSlots(s, ps, trees[d], d, 0);
      TwigKept(s, s', trees[d]);
    }
  }

  /** Once the tree of c holds the new symbol, c has learned it but for its total. */
  lemma Sows(s: seq<Symbol>, s': seq<Symbol>, ps: seq<Place>, ps': seq<Place>, trees: seq<Twig>, t: Twig, c: nat,
             delta: Byte)
    requires Grown(s, ps, trees, 0, 0) && NewSlot(s, s', ps, ps', c, delta)
    requires forall i :: 0 <= i < |ps| && !Owns(ps, c, i) ==> SameTwig(s, s', i)
    requires forall d :: 0 <= d < |ps| && d != c ==> s[d].symbols == s'[d].symbols
    requires |ps| in Slots(t) && Rooted(s', ps', t, c, delta)
    ensures Sown(s, s', ps, ps', trees[c := t] + [Tip], c, |ps|, delta)
  {
    hide Rooted;
    var k, trees' := |ps|, trees[c := t] + [Tip];
    forall d | 0 <= d < |ps'| ensures Rooted(s', ps', trees'[d], d, DueAt(ps', d, k, delta)) {
      if d != c { OthersRooted(s, s', ps, ps', trees, c, delta, d); }
    }
    forall i | IsNode(ps', i) ensures CountOk(s', ps', i, k) {
      if i < k { assert CountOk(s, ps, i, 0); }
    }
    forall d | 0 <= d < |ps'| ensures s'[d].total <= TOTAL_LIMIT {
      if d < k { assert SameTotals(s[d], s'[d]); }
    }
  }

  /** A new symbol linked at a node of the tree that has no child on that side. */
  lemma Attaches(s0: seq<Symbol>, s: seq<Symbol>, s': seq<Symbol>, ps: seq<Place>, ps': seq<Place>, trees: seq<Twig>,
                 c: nat, node: nat, left: bool, delta: Byte)
    requires Probes(s0, s, ps, trees, c, node) && NewSlot(s, s', ps, ps', c, delta)
    requires c < |trees| && node < |ps| && |ps| - node < 0x1_0000
    requires (if left then s[node].left else s[node].right) == 0
    requires s'[node].symbols == s[node].symbols
    requires s'[node].left == if left then |ps| - node else s[node].left
    requires s'[node].right == if left then s[node].right else |ps| - node
    requires forall i :: 0 <= i < |ps| && i != node ==> s'[i] == s[i]
    ensures Sown(s0, s', ps, ps', trees[c := Attached(trees[c], node, left, |ps|)] + [Tip], c, |ps|, delta)
  {
    hide Rooted;
    GrownUnder(s0, s, ps, trees);
    NodeLinks(s, ps, trees, c, node);
    var t := trees[c];
    GrownAt(s, ps, trees, 0, 0, c);
    RootedAttached(s, s', ps, ps', t, c, node, left, delta);
    Sows(s, s', ps, ps', trees, Attached(t, node, left, |ps|), c, delta);
  }

  lemma RootedAttached(s: seq<Symbol>, s': seq<Symbol>, ps: seq<Place>, ps': seq<Place>, t: Twig, c: nat, node: nat,
                       left: bool, delta: Byte)
    requires |ps| <= |s| && NewSlot(s, s', ps, ps', c, delta) && Rooted(s, ps, t, c, 0)
    requires node in Slots(t) && c < node < |ps| && |ps| - node < 0x1_0000
    requires (if left then s[node].left else s[node].right) == 0
    requires s'[node].symbols == s[node].symbols
    requires s'[node].left == if left then |ps| - node else s[node].left
    requires s'[node].right == if left then s[node].right else |ps| - node
    requires forall i :: 0 <= i < |ps| && i != node ==> s'[i] == s[i]
    ensures var t' := Attached(t, node, left, |ps|); Rooted(s', ps', t', c, delta) && |ps| in Slots(t')
  {
    IsFree(s, t, node, left);
    SlotsAttached(t, node, left, |ps|);
    TwigAttached(s, s', t, node, left, |ps|);
  }

  /** A context's first symbol. */
  lemma Plants(s: seq<Symbol>, s': seq<Symbol>, ps: seq<Place>, ps': seq<Place>, trees: seq<Twig>, c: nat, delta: Byte)
    requires Grown(s, ps, trees, 0, 0) && NewSlot(s, s', ps, ps', c, delta)
    requires s[c].symbols == 0 && |ps| - c < 0x1_0000 && s'[c] == s[c].(symbols := |ps| - c)
    requires forall i :: 0 <= i < |ps| && i != c ==> s'[i] == s[i]
    ensures Sown(s, s', ps, ps', trees[c := Fork(|ps|, Tip, Tip)] + [Tip], c, |ps|, delta)
  {
    GrownAt(s, ps, trees, 0, 0, c);
    LeafWeight(s', |ps|);
    Sows(s, s', ps, ps', trees, Fork(|ps|, Tip, Tip), c, delta);
  }

  /** The totals of c are up to date, but may have grown too far. */
  ghost predicate Ripe(s: seq<Symbol>, ps: seq<Place>, trees: seq<Twig>, c: nat, hot: nat) {
    && 1 <= |ps| == |trees| <= |s| && ps[0].path == [] && c < |ps| && hot in Slots(trees[c])
    && (forall d {:trigger Rooted(s, ps, trees[d], d, 0)} :: 0 <= d < |ps| ==> Rooted(s, ps, trees[d], d, 0))
    && (forall i {:trigger CountOk(s, ps, i, hot)} :: IsNode(ps, i) ==> CountOk(s, ps, i, hot))
    && (forall d :: 0 <= d < |ps| && d != c ==> s[d].total <= TOTAL_LIMIT)
  }

  /** The end of an update: c gets its total, and an escape more or none. */
  lemma Ripens(s: seq<Symbol>, s': seq<Symbol>, ps: seq<Place>, trees: seq<Twig>, c: nat, hot: nat, delta: nat,
               escape: nat)
    requires Grown(s, ps, trees, hot, delta) && c < |ps| && hot in Slots(trees[c])
    requires s[c].escapes + escape < 0x1_0000 && s[c].total + escape + delta < 0x1_0000
    requires s' == s[c := s[c].(escapes := s[c].escapes + escape, total := s[c].total + escape + delta)]
    ensures Ripe(s', ps, trees, c, hot)
  {
    hide Rooted;
    GrownAt(s, ps, trees, hot, delta, c);
    TreeSlots(s, ps, trees[c], c, DueAt(ps, c, hot, delta));
    forall d | 0 <= d < |ps| ensures Rooted(s', ps, trees[d], d, 0) {
      GrownAt(s, ps, trees, hot, delta, d);
      TreeSlots(s, ps, trees[d], d, DueAt(ps, d, hot, delta));
      Repaid(s, s', ps, trees[d], d, c, DueAt(ps, d, hot, delta), delta, escape);
    }
    forall i | IsNode(ps, i) ensures CountOk(s', ps, i, hot) {
      assert CountOk(s, ps, i, hot);
    }
  }

  lemma Repaid(s: seq<Symbol>, s': seq<Symbol>, ps: seq<Place>, t: Twig, d: nat, c: nat, due: nat, delta: nat,
               escape: nat)
    requires d < |ps| <= |s| && c < |s| && Rooted(s, ps, t, d, due) && due == if d == c then delta else 0
    requires s[c].escapes + escape < 0x1_0000 && s[c].total + escape + delta < 0x1_0000
    requires s' == s[c := s[c].(escapes := s[c].escapes + escape, total := s[c].total + escape + delta)]
    ensures Rooted(s', ps, t, d, 0)
  {
    TwigKept(s, s', t);
  }

  /** Where no rescale is needed. */
  lemma Ripened(s: seq<Symbol>, ps: seq<Place>, trees: seq<Twig>, c: nat, hot: nat)
    requires Ripe(s, ps, trees, c, hot) && s[c].total <= TOTAL_LIMIT
    requires hot < |s| && s[hot].count <= 0xFF - ParamsOf(ps[c].path).delta
    ensures Grown(s, ps, trees, 0, 0)
  {
    hide Rooted;
    TreeSlots(s, ps, trees[c], c, 0);
    forall d | 0 <= d < |ps| ensures Rooted(s, ps, trees[d], d, DueAt(ps, d, 0, 0)) {
      assert Rooted(s, ps, trees[d], d, 0);
    }
    forall i | IsNode(ps, i) ensures CountOk(s, ps, i, 0) {
      assert CountOk(s, ps, i, hot);
    }
  }

  /** The rescaled tree and its totals: every bound holds again. */
  lemma Rescales(s: seq<Symbol>, s1: seq<Symbol>, s2: seq<Symbol>, ps: seq<Place>, trees: seq<Twig>, c: nat, hot: nat)
    requires Ripe(s, ps, trees, c, hot) && |s| == ARENA_SIZE && Halves(s, s1, Slots(trees[c]))
    requires Spelled(s, trees[c])
    requires var escapes := Halve(s[c].escapes);
      var total := HalvedWeight(s, trees[c]) + escapes + VALUES * ParamsOf(ps[c].path).minimum;
      total <= TOTAL_LIMIT && s2 == s1[c := s1[c].(escapes := escapes, total := total)]
    ensures Grown(s2, ps, trees, 0, 0)
  {
    hide Rooted, HalvedWeight, Weight;
    assert Rooted(s, ps, trees[c], c, 0);
    TreeSlots(s, ps, trees[c], c, 0);
    forall d | 0 <= d < |ps| ensures Rooted(s2, ps, trees[d], d, DueAt(ps, d, 0, 0)) {
      assert Rooted(s, ps, trees[d], d, 0);
      if d == c { RootedHalved(s, s1, s2, ps, trees[c], c); } else { RootedAside(s, s1, s2, ps, trees, c, d); }
    }
    forall i | IsNode(ps, i) ensures CountOk(s2, ps, i, 0) {
      CountHalved(s, s1, s2, ps, trees, c, hot, i);
    }
  }

  lemma CountHalved(s: seq<Symbol>, s1: seq<Symbol>, s2: seq<Symbol>, ps: seq<Place>, trees: seq<Twig>, c: nat,
                    hot: nat, i: nat)
    requires Ripe(s, ps, trees, c, hot) && Halves(s, s1, Slots(trees[c])) && IsNode(ps, i)
    requires |s2| == |s1| && s2 == s1[c := s1[c].(escapes := s2[c].escapes, total := s2[c].total)]
    ensures CountOk(s2, ps, i, 0)
  {
    hide Rooted;
    assert CountOk(s, ps, i, hot);
  }

  lemma RootedAside(s: seq<Symbol>, s1: seq<Symbol>, s2: seq<Symbol>, ps: seq<Place>, trees: seq<Twig>, c: nat, d: nat)
    requires c < |ps| == |trees| <= |s| && d < |ps| && c != d
    requires Rooted(s, ps, trees[c], c, 0) && Rooted(s, ps, trees[d], d, 0) && Halves(s, s1, Slots(trees[c]))
    requires |s2| == |s1| && s2 == s1[c := s1[c].(escapes := s2[c].escapes, total := s2[c].total)]
    ensures Rooted(s2, ps, trees[d], d, 0)
  {
    TreeSlots(s, ps, trees[c], c, 0);
    TreeSlots(s, ps, trees[d], d, 0);
    RootedKept(s, s2, ps, trees[d], d, 0);
  }

  lemma HalvedTotal(s: seq<Symbol>, ps: seq<Place>, t: Twig, c: nat)
    requires c < |ps| <= |s| == ARENA_SIZE && Rooted(s, ps, t, c, 0)
    ensures HalvedWeight(s, t) + Halve(s[c].escapes) + VALUES * ParamsOf(ps[c].path).minimum <= TOTAL_LIMIT
  {
    HalvedWeightBound(s, t);
    SlotsInside(s, t);
    Below(Slots(t), ARENA_SIZE);
  }

  lemma RootedHalved(s: seq<Symbol>, s1: seq<Symbol>, s2: seq<Symbol>, ps: seq<Place>, t: Twig, c: nat)
    requires c < |ps| <= |s| && Rooted(s, ps, t, c, 0) && Halves(s, s1, Slots(t))
    requires |s2| == |s1| && s2 == s1[c := s2[c]] && s2[c].symbols == s1[c].symbols
    requires s2[c].total == s2[c].escapes + VALUES * ParamsOf(ps[c].path).minimum + HalvedWeight(s, t)
    ensures Rooted(s2, ps, t, c, 0)
  {
    TwigHalved(s, s1, t, Slots(t));
    TwigKept(s1, s2, t);
  }

  /** The tree a rescale works on, and that its sums fit. */
  lemma RipeTree(s: seq<Symbol>, ps: seq<Place>, trees: seq<Twig>, c: nat, hot: nat) returns (t: Twig)
    requires Ripe(s, ps, trees, c, hot) && |s| == ARENA_SIZE
    ensures c < |ps| == |trees| <= |s| && t == trees[c] && Spelled(s, t) && Once(t)
    ensures if s[c].symbols != 0 then t.Fork? && t.at == c + s[c].symbols else t.Tip?
    ensures HalvedWeight(s, t) + Halve(s[c].escapes) + VALUES * ParamsOf(ps[c].path).minimum <= TOTAL_LIMIT
  {
    t := trees[c];
    assert Rooted(s, ps, trees[c], c, 0);
    HalvedTotal(s, ps, t, c);
  }

  /** Halving the tree of c touches no totals and no parents, nor c itself. */
  lemma HalvesKeep(s: seq<Symbol>, s1: seq<Symbol>, ps: seq<Place>, trees: seq<Twig>, c: nat, hot: nat)
    requires Ripe(s, ps, trees, c, hot) && Halves(s, s1, Slots(trees[c]))
    ensures |s1| == |s| && forall i :: 0 <= i < |s| ==> SameTotals(s[i], s1[i])
    ensures c < |s| && s1[c] == s[c]
  {
    hide Spelled, Once;
    assert Rooted(s, ps, trees[c], c, 0);
  }

  /** There is room to bring the totals up to date. */
  lemma GrownTotals(s: seq<Symbol>, ps: seq<Place>, trees: seq<Twig>, hot: nat, due: nat, c: nat)
    requires Grown(s, ps, trees, hot, due) && c < |ps|
    ensures c < |s| && s[c].total <= TOTAL_LIMIT && s[c].escapes <= s[c].total + due
  {
    GrownAt(s, ps, trees, hot, due, c);
  }

  lemma RootIs(s: seq<Symbol>, ps: seq<Place>, trees: seq<Twig>)
    requires Grown(s, ps, trees, 0, 0)
    ensures |ps| == |trees| >= 1 && ps[0].path == [] && ParamsOf(ps[0].path) == ROOT
  {
  }
}
