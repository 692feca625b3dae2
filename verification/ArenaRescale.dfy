/** The steps of enet_symbol_rescale: what they keep on any stream, and, where `exact` holds, what they mean for
    the counts of the tree. */
module ArenaRescale {
  import opened Octets
  import opened Frequencies
  import opened PpmModel
  import opened ArenaShape
  import opened ArenaHalving
  import opened ArenaTwigs

  /** The loop has come to the part `rest` of the tree t with the halved counts before it in `total`. */
  ghost predicate Rescaling(s0: seq<Symbol>, s: seq<Symbol>, ps: seq<Place>, t: Twig, rest: Twig, c: nat,
                            counts: seq<nat>, first: nat, total: nat, exact: bool) {
    && HalvedTo(s0, s, t, rest) && first <= rest.at
    && total + HalvedWeight(s0, rest) == HalvedWeight(s0, t) < 0x1_0000
    && (exact ==>
          && Rescalable(s0, ps, c, counts, first) && |ps| <= |s0| && Halving(s0, s, ps, c, counts, first, rest.at)
          && first < |ps| && rest.at < |ps| && ps[first].lo <= ps[rest.at].lo <= VALUES
          && total == Mass(Halved(counts), ps[first].lo, ps[rest.at].lo))
  }

  /** A whole tree has been halved. */
  ghost predicate TreeRescaled(s: seq<Symbol>, s': seq<Symbol>, ps: seq<Place>, t: Twig, c: nat, counts: seq<nat>,
                               first: nat, total: nat, exact: bool) {
    && Halves(s, s', Slots(t)) && Spelled(s, t) && total == HalvedWeight(s, t)
    && (exact ==>
          && |ps| <= |s| && HalvedBelow(s, s', ps, c, counts, first)
          && |counts| == VALUES && first < |ps| && ps[first].lo <= ps[first].hi <= VALUES
          && total == Mass(Halved(counts), ps[first].lo, ps[first].hi))
  }

  lemma RescalingBegins(s: seq<Symbol>, ps: seq<Place>, t: Twig, c: nat, counts: seq<nat>, exact: bool)
    requires Spelled(s, t) && Once(t) && t.Fork? && HalvedWeight(s, t) < 0x1_0000
    requires exact ==> Rescalable(s, ps, c, counts, t.at)
    ensures Rescaling(s, s, ps, t, t, c, counts, t.at, 0, exact)
  {
    hide Mass, Halving, Placed, HalvedWeight;
    HalvedToBegins(s, t);
    if exact { HalvingBegins(s, ps, c, counts, t.at); }
  }

  lemma RescalingFacts(s0: seq<Symbol>, s: seq<Symbol>, ps: seq<Place>, t: Twig, rest: Twig, c: nat, counts: seq<nat>,
                       first: nat, total: nat, exact: bool)
    requires Rescaling(s0, s, ps, t, rest, c, counts, first, total, exact)
    ensures rest.Fork? && first <= rest.at < |s| == |s0|
    ensures s[rest.at].left != 0 <==> rest.left.Fork?
    ensures s[rest.at].left != 0 ==> rest.left.at == rest.at + s[rest.at].left
    ensures s[rest.at].right != 0 <==> rest.right.Fork?
    ensures s[rest.at].right != 0 ==> rest.right.at == rest.at + s[rest.at].right
  {
    hide Mass, Halving, Placed, HalvedWeight, HalvedTo, Rescalable;
    HalvedToFacts(s0, s, t, rest);
  }

  /** The current slot is halved, the left side of it not yet. */
  ghost predicate HalvedAlone(s1: seq<Symbol>, s2: seq<Symbol>, k: nat) {
    k < |s1| && s2 == s1[k := s1[k].(count := Halve(s1[k].count), under := Halve(s1[k].count))]
  }

  lemma RescalingLeft(s0: seq<Symbol>, s1: seq<Symbol>, s2: seq<Symbol>, ps: seq<Place>, t: Twig, rest: Twig, c: nat,
                      counts: seq<nat>, first: nat, total: nat, exact: bool)
    requires Rescaling(s0, s1, ps, t, rest, c, counts, first, total, exact) && HalvedAlone(s1, s2, rest.at)
    requires rest.left.Fork?
    ensures Spelled(s2, rest.left) && Once(rest.left) && HalvedWeight(s2, rest.left) < 0x1_0000
    ensures exact ==> Rescalable(s2, ps, c, counts, rest.left.at)
  {
    hide Mass, Halving, Placed, HalvedWeight, HalvedTo, Rescalable;
    HalvedToFacts(s0, s1, t, rest);
    HalvedLeft(s0, s1, s2, t, rest);
    if exact {
      HalvingFacts(s0, s1, ps, c, counts, first, rest.at);
      HalvingLeft(s0, s1, s2, ps, c, counts, first, rest.at);
    }
  }

  /** The left side of the current slot is done, if it has one. */
  ghost predicate LeftDone(s2: seq<Symbol>, s3: seq<Symbol>, ps: seq<Place>, rest: Twig, c: nat, counts: seq<nat>,
                           lower: nat, exact: bool) {
    && rest.Fork?
    && if rest.left.Fork? then TreeRescaled(s2, s3, ps, rest.left, c, counts, rest.left.at, lower, exact)
       else s3 == s2 && lower == 0
  }

  lemma RescalingSums(s0: seq<Symbol>, s1: seq<Symbol>, s2: seq<Symbol>, s3: seq<Symbol>, ps: seq<Place>, t: Twig,
                      rest: Twig, c: nat, counts: seq<nat>, first: nat, total: nat, lower: nat, exact: bool)
    requires Rescaling(s0, s1, ps, t, rest, c, counts, first, total, exact) && HalvedAlone(s1, s2, rest.at)
    requires LeftDone(s2, s3, ps, rest, c, counts, lower, exact)
    ensures rest.at < |s2| == |s3| && s3[rest.at] == s2[rest.at]
    ensures Halves(s2, s3, Slots(rest.left))
    ensures Spelled(s0, rest.left) && Spelled(s0, rest.right) && lower == HalvedWeight(s0, rest.left)
    ensures s3[rest.at].under + lower + HalvedWeight(s0, rest.right) + total == HalvedWeight(s0, t) < 0x1_0000
  {
    hide Mass, Halving, Placed, HalvedTo, Rescalable, HalvedBelow;
    HalvedToFacts(s0, s1, t, rest);
    HalvedLeft(s0, s1, s2, t, rest);
    if rest.left.Tip? { NothingHalved(s2, rest.left); }
    HalvedAside(s0, s1, s2, s3, t, rest);
  }

  /** The sums of the loop in terms of the counts. */
  lemma RescalingExactly(s0: seq<Symbol>, s1: seq<Symbol>, s2: seq<Symbol>, s3: seq<Symbol>, s4: seq<Symbol>,
                         ps: seq<Place>, t: Twig, rest: Twig, c: nat, counts: seq<nat>, first: nat, total: nat,
                         lower: nat)
    requires Rescaling(s0, s1, ps, t, rest, c, counts, first, total, true) && HalvedAlone(s1, s2, rest.at)
    requires LeftDone(s2, s3, ps, rest, c, counts, lower, true)
    requires rest.at < |s3| && s3[rest.at].under + lower < 0x1_0000
    requires s4 == s3[rest.at := s3[rest.at].(under := s3[rest.at].under + lower)]
    ensures rest.right.Fork? ==>
      && Halving(s0, s4, ps, c, counts, first, rest.right.at)
      && first < |ps| <= |s0| && rest.right.at < |ps| && ps[first].lo <= ps[rest.right.at].lo <= VALUES == |counts|
      && total + s4[rest.at].under == Mass(Halved(counts), ps[first].lo, ps[rest.right.at].lo)
    ensures rest.right.Tip? ==>
      && |ps| <= |s0| && HalvedBelow(s0, s4, ps, c, counts, first)
      && |counts| == VALUES && first < |ps| && ps[first].lo <= ps[first].hi <= VALUES
      && total + s4[rest.at].under == Mass(Halved(counts), ps[first].lo, ps[first].hi)
  {
    hide Mass, Halving, HalvedTo, HalvedBelow, HalvedLeftOf, HalvedWeight, Placed;
    var k := rest.at;
    HalvedToFacts(s0, s1, t, rest);
    HalvingFacts(s0, s1, ps, c, counts, first, k);
    HalvingSums(s0, s1, s2, s3, ps, c, counts, first, k, lower);
    HalvingTurn(s0, s1, s2, s3, s4, ps, c, counts, first, k, lower);
    if rest.right.Tip? {
      HalvingEnds(s0, s1, s4, ps, c, counts, first, k);
    } else {
      HalvingMovesRight(s0, s1, s4, ps, c, counts, first, k);
    }
  }

  /** A turn of the loop is done: on to the right, or the end. */
  lemma RescalingTurn(s0: seq<Symbol>, s1: seq<Symbol>, s2: seq<Symbol>, s3: seq<Symbol>, s4: seq<Symbol>,
                      ps: seq<Place>, t: Twig, rest: Twig, c: nat, counts: seq<nat>, first: nat, total: nat,
                      lower: nat, exact: bool)
    requires Rescaling(s0, s1, ps, t, rest, c, counts, first, total, exact) && HalvedAlone(s1, s2, rest.at)
    requires LeftDone(s2, s3, ps, rest, c, counts, lower, exact)
    requires rest.at < |s3| && s3[rest.at].under + lower < 0x1_0000
    requires s4 == s3[rest.at := s3[rest.at].(under := s3[rest.at].under + lower)]
    ensures rest.at < |s4|
    ensures if rest.right.Fork?
      then Rescaling(s0, s4, ps, t, rest.right, c, counts, first, total + s4[rest.at].under, exact)
      else TreeRescaled(s0, s4, ps, t, c, counts, first, total + s4[rest.at].under, exact)
  {
    hide Mass, Halving, Placed, HalvedTo, HalvedBelow, HalvedWeight, LeftDone, Halved;
    HalvedToFacts(s0, s1, t, rest);
    RescalingSums(s0, s1, s2, s3, ps, t, rest, c, counts, first, total, lower, exact);
    HalvedTurn(s0, s1, s2, s3, s4, t, rest);
    if exact { RescalingExactly(s0, s1, s2, s3, s4, ps, t, rest, c, counts, first, total, lower); }
    if rest.right.Tip? { HalvedLast(s0, rest); }
  }
}
