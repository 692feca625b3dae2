/** Rescaling: enet_symbol_rescale walks one tree, down to the left by recursion and to the right
    by its loop, halving every count on the way. */
module ArenaHalving {
  import opened Octets
  import opened Frequencies
  import opened PpmModel
  import opened ArenaShape
  import opened ArenaForest

  /** Slot i with its count halved and what lies under it recounted. */
  ghost predicate IsHalved(a: Symbol, b: Symbol, p: Place, counts: seq<nat>)
  {
    && |counts| == VALUES && p.lo <= a.value < VALUES
    && b == a.(count := b.count, under := b.under)
    && b.count == Halve(a.count)
    && b.under == Mass(Halved(counts), p.lo, a.value + 1)
  }

  /** The slots inside the range of `node` but not of `rest` are halved, nothing else has changed. */
  ghost predicate Halving(s: seq<Symbol>, s': seq<Symbol>, ps: seq<Place>, c: nat, counts: seq<nat>, node: int,
                          rest: int)
    requires |ps| <= |s|
  {
    && |s'| == |s|
    && Owns(ps, c, node) && Owns(ps, c, rest)
    && ps[node].lo <= ps[rest].lo && ps[rest].hi == ps[node].hi
    && (forall i :: 0 <= i < |s| && !(Owns(ps, c, i) && Inside(ps, node, i) && !Inside(ps, rest, i)) ==> s'[i] == s[i])
    && (forall i :: Owns(ps, c, i) && Inside(ps, node, i) && !Inside(ps, rest, i) ==>
      IsHalved(s[i], s'[i], ps[i], counts))
  }

  /** The whole range of `node` is halved, nothing else has changed. */
  ghost predicate HalvedBelow(s: seq<Symbol>, s': seq<Symbol>, ps: seq<Place>, c: nat, counts: seq<nat>, node: int)
    requires |ps| <= |s|
  {
    && |s'| == |s|
    && Owns(ps, c, node)
    && (forall i :: 0 <= i < |s| && !(Owns(ps, c, i) && Inside(ps, node, i)) ==> s'[i] == s[i])
    && (forall i :: Owns(ps, c, i) && Inside(ps, node, i) ==> IsHalved(s[i], s'[i], ps[i], counts))
  }

  /** The current node, and everything left of it, is done: the slots strictly to its right remain. */
  ghost predicate HalvedLeftOf(s: seq<Symbol>, s1: seq<Symbol>, s2: seq<Symbol>, ps: seq<Place>, c: nat,
                               counts: seq<nat>, rest: int)
    requires |ps| <= |s|
  {
    && |s| == |s1| == |s2| && Owns(ps, c, rest)
    && IsHalved(s1[rest], s2[rest], ps[rest], counts)
    && (forall i :: 0 <= i < |s| && i != rest ==>
         (Owns(ps, c, i) && ps[rest].lo <= ps[i].lo && ps[i].hi <= s[rest].value) || s2[i] == s1[i])
    && (forall i :: Owns(ps, c, i) && ps[rest].lo <= ps[i].lo && ps[i].hi <= s[rest].value ==>
      IsHalved(s1[i], s2[i], ps[i], counts))
  }

  /** The part of the tree of c from `node` on agrees with counts that a 16-bit total can hold. */
  ghost predicate Rescalable(s: seq<Symbol>, ps: seq<Place>, c: nat, counts: seq<nat>, node: int) {
    && |s| == ARENA_SIZE && Placed(s, ps) && c < |ps| && Owns(ps, c, node)
    && |counts| == VALUES && Mass(counts, 0, VALUES) < 0x1_0000
    && (forall i :: Owns(ps, c, i) && Inside(ps, node, i) ==> NodeOk(s[i], ps[i], counts))
  }

  lemma HalvingBegins(s: seq<Symbol>, ps: seq<Place>, c: nat, counts: seq<nat>, node: nat)
    requires Rescalable(s, ps, c, counts, node)
    ensures |ps| <= |s| && node < |ps| && Halving(s, s, ps, c, counts, node, node)
    ensures ps[node].lo <= VALUES && Mass(Halved(counts), ps[node].lo, ps[node].lo) == 0
  {
    assert PlaceOk(s, ps, node);
  }

  lemma HalvedMassBound(counts: seq<nat>, lo: nat, hi: nat)
    requires lo <= hi <= |counts| == VALUES && Mass(counts, 0, VALUES) < 0x1_0000
    ensures Mass(Halved(counts), lo, hi) < 0x1_0000
  {
    MassSplit(Halved(counts), 0, lo, VALUES);
    MassSplit(Halved(counts), lo, hi, VALUES);
    MassHalved(counts, 0, VALUES);
  }

  lemma HalvingFacts(s: seq<Symbol>, s1: seq<Symbol>, ps: seq<Place>, c: nat, counts: seq<nat>, node: nat, rest: nat)
    requires Rescalable(s, ps, c, counts, node) && |ps| <= |s|
    requires Halving(s, s1, ps, c, counts, node, rest)
    ensures rest < |ps| && |s1| == |s| && s1[rest] == s[rest]
    ensures NodeOk(s[rest], ps[rest], counts) && LinksOk(s, ps, rest)
    ensures ps[node].hi == ps[rest].hi <= VALUES
    ensures ps[node].lo <= ps[rest].lo && Owns(ps, c, rest) && Inside(ps, node, rest)
  {
    hide Mass;
    assert PlaceOk(s, ps, rest) && LinksOk(s, ps, rest) && Inside(ps, node, rest);
  }

  /** Halving keeps every place. */
  lemma HalvingKeepsPlaces(s: seq<Symbol>, s1: seq<Symbol>, ps: seq<Place>, c: nat, counts: seq<nat>, node: nat,
                           rest: nat)
    requires Rescalable(s, ps, c, counts, node) && |ps| <= |s|
    requires Halving(s, s1, ps, c, counts, node, rest)
    ensures Placed(s1, ps)
  {
    hide Mass;
    forall i | 0 <= i < |ps| ensures SameShape(s[i], s1[i]) {
      if Owns(ps, c, i) && Inside(ps, node, i) && !Inside(ps, rest, i) {
        assert IsHalved(s[i], s1[i], ps[i], counts);
      }
    }
    PlacedKept(s, s1, ps);
  }

  /** The left subtree of the current node is still to be halved. */
  lemma HalvingLeft(s: seq<Symbol>, s1: seq<Symbol>, s2: seq<Symbol>, ps: seq<Place>, c: nat, counts: seq<nat>,
                    node: nat, rest: nat)
    requires Rescalable(s, ps, c, counts, node) && |ps| <= |s|
    requires Halving(s, s1, ps, c, counts, node, rest) && rest < |s1|
    requires |s2| == |s1| && s2 == s1[rest := s1[rest].(count := s2[rest].count, under := s2[rest].under)]
    requires s[rest].left != 0
    ensures Rescalable(s2, ps, c, counts, rest + s[rest].left)
  {
    hide Mass, Placed, Halving;
    HalvingFacts(s, s1, ps, c, counts, node, rest);
    HalvingKeepsPlaces(s, s1, ps, c, counts, node, rest);
    PlacedKept(s1, s2, ps);
    var child := rest + s[rest].left;
    forall i | Owns(ps, c, i) && Inside(ps, child, i) ensures NodeOk(s2[i], ps[i], counts) {
      UntouchedYet(s, s1, ps, c, counts, node, rest, i);
      assert NodeOk(s[i], ps[i], counts);
    }
  }

  lemma UntouchedYet(s: seq<Symbol>, s1: seq<Symbol>, ps: seq<Place>, c: nat, counts: seq<nat>, node: nat, rest: nat,
                     i: nat)
    requires |ps| <= |s| && Halving(s, s1, ps, c, counts, node, rest)
    requires Owns(ps, c, i) && Inside(ps, rest, i)
    ensures s1[i] == s[i] && Inside(ps, node, i)
  {
    hide Mass;
  }

  /** One turn of the rescaling loop: the node itself and its left subtree are done. */
  lemma HalvingTurn(s: seq<Symbol>, s1: seq<Symbol>, s2: seq<Symbol>, s3: seq<Symbol>, s4: seq<Symbol>,
                    ps: seq<Place>, c: nat, counts: seq<nat>, node: nat, rest: nat, lower: nat)
    requires Rescalable(s, ps, c, counts, node) && |ps| <= |s|
    requires Halving(s, s1, ps, c, counts, node, rest) && rest < |s1|
    requires s2 == s1[rest := s1[rest].(count := Halve(s1[rest].count), under := Halve(s1[rest].count))]
    requires |s3| == |s2| && rest < |ps| && ps[rest].lo <= s[rest].value
    requires if s[rest].left != 0
      then HalvedBelow(s2, s3, ps, c, counts, rest + s[rest].left)
        && lower == Mass(Halved(counts), ps[rest].lo, s[rest].value)
      else s3 == s2 && lower == 0
    requires s3[rest].under + lower < 0x1_0000
    requires s4 == s3[rest := s3[rest].(under := s3[rest].under + lower)]
    ensures HalvedLeftOf(s, s1, s4, ps, c, counts, rest)
    ensures s4[rest].under == Mass(Halved(counts), ps[rest].lo, s[rest].value + 1)
  {
    hide Mass, Placed, Halving, IsHalved;
    HalvingFacts(s, s1, ps, c, counts, node, rest);
    LowerMass(s, ps, c, counts, rest);
    assert s3[rest] == s2[rest];
    forall i | Owns(ps, c, i) && ps[rest].lo <= ps[i].lo && ps[i].hi <= s[rest].value
      ensures IsHalved(s1[i], s4[i], ps[i], counts)
    {
      LowerNodes(s, s1, ps, c, counts, node, rest, i);
    }
    assert IsHalved(s1[rest], s4[rest], ps[rest], counts) by { HalvedHere(s1[rest], s4[rest], ps[rest], counts); }
  }

  /** The sums the loop carries, and that they fit 16 bits. */
  lemma HalvingSums(s: seq<Symbol>, s1: seq<Symbol>, s2: seq<Symbol>, s3: seq<Symbol>,
                    ps: seq<Place>, c: nat, counts: seq<nat>, node: nat, rest: nat, lower: nat)
    requires Rescalable(s, ps, c, counts, node) && |ps| <= |s|
    requires Halving(s, s1, ps, c, counts, node, rest) && rest < |s1|
    requires s2 == s1[rest := s1[rest].(count := Halve(s1[rest].count), under := Halve(s1[rest].count))]
    requires |s3| == |s2| && rest < |ps| && ps[rest].lo <= s[rest].value
    requires if s[rest].left != 0
      then HalvedBelow(s2, s3, ps, c, counts, rest + s[rest].left)
        && lower == Mass(Halved(counts), ps[rest].lo, s[rest].value)
      else s3 == s2 && lower == 0
    ensures s3[rest] == s2[rest]
    ensures s3[rest].under + lower == Mass(Halved(counts), ps[rest].lo, s[rest].value + 1) < 0x1_0000
    ensures ps[node].lo <= ps[rest].lo && s[rest].value + 1 <= ps[rest].hi == ps[node].hi <= VALUES
    ensures Mass(Halved(counts), ps[node].lo, s[rest].value + 1)
         == Mass(Halved(counts), ps[node].lo, ps[rest].lo) + s3[rest].under + lower
    ensures s[rest].right == 0 ==>
      Mass(Halved(counts), ps[node].lo, ps[node].hi) == Mass(Halved(counts), ps[node].lo, s[rest].value + 1)
    ensures Mass(Halved(counts), ps[node].lo, ps[node].hi) < 0x1_0000
    ensures s[rest].right != 0 ==> rest + s[rest].right < |ps| && ps[rest + s[rest].right].lo == s[rest].value + 1
    ensures s[rest].left != 0 ==>
      var left := rest + s[rest].left; left < |ps| && ps[left].lo == ps[rest].lo && ps[left].hi == s[rest].value
  {
    hide Mass, Placed, Halving, IsHalved;
    HalvingFacts(s, s1, ps, c, counts, node, rest);
    LowerMass(s, ps, c, counts, rest);
    HalvedMassBound(counts, ps[rest].lo, s[rest].value + 1);
    HalvedMassBound(counts, ps[node].lo, ps[node].hi);
    MassSplit(Halved(counts), ps[node].lo, ps[rest].lo, s[rest].value + 1);
    MassSplit(Halved(counts), ps[node].lo, s[rest].value + 1, ps[node].hi);
  }

  lemma HalvedHere(a: Symbol, b: Symbol, p: Place, counts: seq<nat>)
    requires |counts| == VALUES && p.lo <= a.value
    requires b == a.(count := b.count, under := b.under) && b.count == Halve(a.count)
    requires b.under == Mass(Halved(counts), p.lo, a.value + 1)
    ensures IsHalved(a, b, p, counts)
  {
  }

  lemma LowerMass(s: seq<Symbol>, ps: seq<Place>, c: nat, counts: seq<nat>, rest: nat)
    requires rest < |ps| <= |s| && |counts| == VALUES && NodeOk(s[rest], ps[rest], counts)
    ensures Mass(Halved(counts), ps[rest].lo, s[rest].value + 1)
         == Halve(s[rest].count) + Mass(Halved(counts), ps[rest].lo, s[rest].value)
    ensures s[rest].left == 0 ==> Mass(Halved(counts), ps[rest].lo, s[rest].value) == 0
    ensures s[rest].right == 0 ==> Mass(Halved(counts), s[rest].value + 1, ps[rest].hi) == 0
  {
    if s[rest].left == 0 { MassZero(Halved(counts), ps[rest].lo, s[rest].value); }
    if s[rest].right == 0 { MassZero(Halved(counts), s[rest].value + 1, ps[rest].hi); }
  }

  /** A node on the left side of the current one is inside its left child's range. */
  lemma LowerNodes(s: seq<Symbol>, s1: seq<Symbol>, ps: seq<Place>, c: nat, counts: seq<nat>, node: nat, rest: nat,
                   i: nat)
    requires Rescalable(s, ps, c, counts, node) && |ps| <= |s|
    requires Halving(s, s1, ps, c, counts, node, rest) && rest < |ps|
    requires Owns(ps, c, i) && ps[rest].lo <= ps[i].lo && ps[i].hi <= s[rest].value
    ensures s1[i] == s[i] && i != rest
    ensures s[rest].left != 0 && Owns(ps, c, rest + s[rest].left) && Inside(ps, rest + s[rest].left, i)
  {
    hide Mass;
    HalvingFacts(s, s1, ps, c, counts, node, rest);
    assert PlaceOk(s, ps, i) && PlaceOk(s, ps, rest);
    assert Inside(ps, rest, i);
    UntouchedYet(s, s1, ps, c, counts, node, rest, i);
    assert NodeOk(s[i], ps[i], counts);
  }

  lemma HalvingMovesRight(s: seq<Symbol>, s1: seq<Symbol>, s2: seq<Symbol>, ps: seq<Place>, c: nat, counts: seq<nat>,
                          node: int, rest: int)
    requires Placed(s, ps) && c < |ps| && Halving(s, s1, ps, c, counts, node, rest)
    requires HalvedLeftOf(s, s1, s2, ps, c, counts, rest)
    requires s[rest].right != 0
    ensures Halving(s, s2, ps, c, counts, node, rest + s[rest].right)
  {
    hide Mass, IsHalved;
    assert LinksOk(s, ps, rest) && PlaceOk(s, ps, rest);
    var next := rest + s[rest].right;
    forall i | Owns(ps, c, i) && Inside(ps, node, i) && !Inside(ps, next, i)
      ensures IsHalved(s[i], s2[i], ps[i], counts)
    {
      assert PlaceOk(s, ps, i);
      if Inside(ps, rest, i) && i != rest {
        Sides(s, ps, c, rest, i);
      }
    }
    forall i | 0 <= i < |s| && !(Owns(ps, c, i) && Inside(ps, node, i) && !Inside(ps, next, i))
      ensures s2[i] == s[i]
    {
      if Owns(ps, c, i) { assert PlaceOk(s, ps, i); }
    }
  }

  lemma HalvingEnds(s: seq<Symbol>, s1: seq<Symbol>, s2: seq<Symbol>, ps: seq<Place>, c: nat, counts: seq<nat>,
                    node: int, rest: int)
    requires Placed(s, ps) && c < |ps| && Halving(s, s1, ps, c, counts, node, rest)
    requires HalvedLeftOf(s, s1, s2, ps, c, counts, rest)
    requires forall i :: Owns(ps, c, i) && Inside(ps, node, i) ==> NodeOk(s[i], ps[i], counts)
    requires s[rest].right == 0
    ensures HalvedBelow(s, s2, ps, c, counts, node)
  {
    hide Mass, IsHalved;
    assert PlaceOk(s, ps, rest) && Inside(ps, node, rest) && NodeOk(s[rest], ps[rest], counts);
    forall i | Owns(ps, c, i) && Inside(ps, node, i)
      ensures IsHalved(s[i], s2[i], ps[i], counts)
    {
      assert PlaceOk(s, ps, i) && NodeOk(s[i], ps[i], counts);
      if Inside(ps, rest, i) && i != rest {
        Sides(s, ps, c, rest, i);
      }
    }
    forall i | 0 <= i < |s| && !(Owns(ps, c, i) && Inside(ps, node, i))
      ensures s2[i] == s[i]
    {
      if Owns(ps, c, i) { assert PlaceOk(s, ps, i); }
    }
  }

  /** Halving from the first node of a tree halves the tree. */
  lemma TreeHalved(s: seq<Symbol>, s': seq<Symbol>, ps: seq<Place>, c: nat, counts: seq<nat>)
    requires Placed(s, ps) && c < |ps| && TreeOk(s, ps, c, counts) && |counts| == VALUES
    requires if s[c].symbols != 0 then HalvedBelow(s, s', ps, c, counts, c + s[c].symbols) else s' == s
    ensures Placed(s', ps) && Framed(s, s', ps, c) && TreeOk(s', ps, c, Halved(counts))
  {
    hide Mass;
    assert LinksOk(s, ps, c);
    forall i | Owns(ps, c, i)
      ensures NodeOk(s'[i], ps[i], Halved(counts)) && SameShape(s[i], s'[i]) && SameTotals(s[i], s'[i])
    {
      assert PlaceOk(s, ps, i) && NodeOk(s[i], ps[i], counts);
      assert s[c].symbols != 0 ==> Inside(ps, c + s[c].symbols, i);
      assert counts[s[i].value] != 0;
    }
    forall i | 0 <= i < |ps| ensures SameShape(s[i], s'[i]) && SameTotals(s[i], s'[i]) {
      if !Owns(ps, c, i) { assert s'[i] == s[i]; }
    }
    PlacedKept(s, s', ps);
  }

  /** Halving the tree of c and its totals leaves an arena that holds the rescaled table. */
  lemma ForestHalved(s: seq<Symbol>, s1: seq<Symbol>, s2: seq<Symbol>, ps: seq<Place>, ts: Tables, c: nat)
    requires Holds(s, ps, ts) && c < |ps| && |CountsAt(ts, ps, c)| == VALUES && ps[c].path in ts
    requires if s[c].symbols != 0 then HalvedBelow(s, s1, ps, c, CountsAt(ts, ps, c), c + s[c].symbols) else s1 == s
    requires Retotalled(s1, s2, c)
    requires HeaderOk(s2[c], ps[c].path, ts[ps[c].path := Rescaled(ts[ps[c].path])])
    ensures Holds(s2, ps, ts[ps[c].path := Rescaled(ts[ps[c].path])])
  {
    hide TreeOk, Total, HalvedBelow;
    var ts' := ts[ps[c].path := Rescaled(ts[ps[c].path])];
    assert TreeOk(s, ps, c, CountsAt(ts, ps, c));
    TreeHalved(s, s1, ps, c, CountsAt(ts, ps, c));
    PlacedKept(s1, s2, ps);
    forall d: nat | d < |ps| ensures TreeOk(s2, ps, d, CountsAt(ts', ps, d)) {
      if d != c {
        assert TreeOk(s, ps, d, CountsAt(ts, ps, d)) && ps[d].path != ps[c].path;
        TreeFramed(s, s1, ps, ps, c, d, CountsAt(ts, ps, d));
      }
      TreeSame(s1, s2, ps, d, CountsAt(ts', ps, d));
    }
    forall d: nat | d < |ps| ensures HeaderOk(s2[d], ps[d].path, ts') {
      assert d != c ==> HeaderOk(s[d], ps[d].path, ts) && ps[d].path != ps[c].path && SameTotals(s[d], s1[d]);
    }
    forall d | d in ts' ensures exists i :: 0 <= i < |ps| && ps[i].path == d {
      assert d in ts;
    }
  }

  lemma HoldsAt(s: seq<Symbol>, ps: seq<Place>, ts: Tables, c: nat)
    requires Holds(s, ps, ts) && c < |ps|
    ensures |ps| <= |s| && Placed(s, ps)
    ensures HeaderOk(s[c], ps[c].path, ts) && TreeOk(s, ps, c, CountsAt(ts, ps, c))
    ensures CountsAt(ts, ps, c) == TableAt(ts, ps[c].path).counts
    ensures s[c].symbols != 0 ==> Owns(ps, c, c + s[c].symbols)
    ensures s[c].symbols != 0 ==> ps[c + s[c].symbols].lo == 0 && ps[c + s[c].symbols].hi == VALUES
  {
    assert LinksOk(s, ps, c);
  }

  lemma WholeTreeRescalable(s: seq<Symbol>, ps: seq<Place>, ts: Tables, c: nat)
    requires Holds(s, ps, ts) && c < |ps| && |s| == ARENA_SIZE && s[c].symbols != 0
    requires |CountsAt(ts, ps, c)| == VALUES && Mass(CountsAt(ts, ps, c), 0, VALUES) < 0x1_0000
    ensures Rescalable(s, ps, c, CountsAt(ts, ps, c), c + s[c].symbols)
  {
    hide Mass;
    HoldsAt(s, ps, ts, c);
    forall i | Owns(ps, c, i) ensures NodeOk(s[i], ps[i], CountsAt(ts, ps, c)) { }
  }

  lemma EmptyTreeMass(s: seq<Symbol>, ps: seq<Place>, ts: Tables, c: nat)
    requires Holds(s, ps, ts) && c < |ps| && s[c].symbols == 0
    requires |CountsAt(ts, ps, c)| == VALUES
    ensures Mass(Halved(CountsAt(ts, ps, c)), 0, VALUES) == 0
  {
    HoldsAt(s, ps, ts, c);
    MassZero(Halved(CountsAt(ts, ps, c)), 0, VALUES);
  }

  lemma CountedFacts(s: seq<Symbol>, ps: seq<Place>, ts: Tables, c: nat, v: Byte)
    requires Counted(s, ps, ts, c, v)
    ensures c < |ps| <= |s| && HeaderOk(s[c], ps[c].path, ts)
  {
  }
}
