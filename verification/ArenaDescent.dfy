/** The steps of a search through one context's tree, as encoder and decoder take them: what they keep on any
    stream, and, where `exact` holds, what they mean for the tables the arena holds. */
module ArenaDescent {
  import opened Octets
  import opened Frequencies
  import opened PpmModel
  import opened ArenaShape
  import opened ArenaForest
  import opened ArenaSearch
  import opened ArenaTwigs
  import opened ArenaGrowth

  /** A search of the tree of c has come to `node`; if `exact`, it is one for v. */
  ghost predicate Descends(s0: seq<Symbol>, s: seq<Symbol>, ps: seq<Place>, trees: seq<Twig>, ts: Tables, c: nat,
                           v: Byte, node: nat, exact: bool) {
    Probes(s0, s, ps, trees, c, node) && (exact ==> Search(s0, s, ps, ts, c, v, node))
  }

  /** The counts of all values below the range of `node`, where the tables are known. */
  ghost function PassedAt(ps: seq<Place>, ts: Tables, c: nat, node: nat): nat {
    if c < |ps| && node < |ps| && ps[node].lo <= |CountsAt(ts, ps, c)| then Passed(ps, ts, c, node) else 0
  }

  /** The arena after one update of the tree of c, whose symbol is `symbol`. */
  ghost predicate Visits(s0: seq<Symbol>, s: seq<Symbol>, ps0: seq<Place>, ps: seq<Place>, trees: seq<Twig>, ts: Tables,
                         c: nat, v: Byte, symbol: nat, exact: bool) {
    && c < |ps0| && Sown(s0, s, ps0, ps, trees, c, symbol, ParamsOf(ps0[c].path).delta)
    && (exact ==> Visited(s0, s, ps0, ps, ts, c, v, symbol))
  }

  lemma DescendBegins(s: seq<Symbol>, ps: seq<Place>, trees: seq<Twig>, ts: Tables, c: nat, v: Byte, exact: bool)
    requires Grown(s, ps, trees, 0, 0) && c < |ps| && (exact ==> Open(s, ps, ts, c))
    ensures |ps| == |trees| <= |s|
    ensures var first := c + s[c].symbols; s[c].symbols != 0 ==>
      Descends(s, s, ps, trees, ts, c, v, first, exact) && (exact ==> PassedAt(ps, ts, c, first) == 0)
  {
    hide Grown, Open, Search, Mass;
    ProbeBegins(s, ps, trees, c);
    if exact && s[c].symbols != 0 {
      SearchBegins(s, ps, ts, c, v);
      SearchFacts(s, s, ps, ts, c, v, c + s[c].symbols);
    }
  }

  lemma DescendFacts(s0: seq<Symbol>, s: seq<Symbol>, ps: seq<Place>, trees: seq<Twig>, ts: Tables, c: nat, v: Byte,
                     node: nat, exact: bool)
    requires Descends(s0, s, ps, trees, ts, c, v, node, exact)
    ensures c < node < |ps| == |trees| <= |s| == |s0|
    ensures 1 <= s[node].count <= 0xFF - ParamsOf(ps[c].path).delta
    ensures s[node].left != 0 ==> node + s[node].left < |ps|
    ensures s[node].right != 0 ==> node + s[node].right < |ps|
    ensures exact ==>
      && s[node].count <= s[node].under && s[node].under + 3 < 0x1_0000
      && PassedAt(ps, ts, c, node) + s[node].under + VALUES * ParamsOf(ps[c].path).minimum < 0x1_0000
  {
    hide Probes, Search, Mass;
    ProbeFacts(s0, s, ps, trees, c, node);
    if exact {
      SearchFacts(s0, s, ps, ts, c, v, node);
      SearchRoom(s0, s, ps, ts, c, v, node);
    }
  }

  lemma DescendLeft(s0: seq<Symbol>, s: seq<Symbol>, s': seq<Symbol>, ps: seq<Place>, trees: seq<Twig>, ts: Tables,
                    c: nat, v: Byte, node: nat, exact: bool)
    requires Descends(s0, s, ps, trees, ts, c, v, node, exact) && c < |ps| && node < |s| && s[node].left != 0
    requires s' == s[node := s[node].(under := ToHalf(s[node].under + ParamsOf(ps[c].path).delta))]
    requires exact ==> v < s[node].value
    ensures Descends(s0, s', ps, trees, ts, c, v, node + s[node].left, exact)
    ensures exact ==> PassedAt(ps, ts, c, node + s[node].left) == PassedAt(ps, ts, c, node)
  {
    hide Probes, Search, Mass, Passed, CountsAt;
    ProbeFacts(s0, s, ps, trees, c, node);
    ProbeOn(s0, s, s', ps, trees, c, node, node + s[node].left);
    if exact {
      SearchFacts(s0, s, ps, ts, c, v, node);
      SearchChildren(s0, s, ps, ts, c, v, node);
      SearchLeft(s0, s, s', ps, ts, c, v, node);
    }
  }

  lemma DescendRight(s0: seq<Symbol>, s: seq<Symbol>, ps: seq<Place>, trees: seq<Twig>, ts: Tables,
                     c: nat, v: Byte, node: nat, exact: bool)
    requires Descends(s0, s, ps, trees, ts, c, v, node, exact) && c < |ps| && node < |s| && s[node].right != 0
    requires exact ==> s[node].value < v
    ensures Descends(s0, s, ps, trees, ts, c, v, node + s[node].right, exact)
    ensures exact ==> PassedAt(ps, ts, c, node + s[node].right) == PassedAt(ps, ts, c, node) + s[node].under
  {
    hide Probes, Search, Mass, Passed, CountsAt;
    ProbeFacts(s0, s, ps, trees, c, node);
    ProbeOn(s0, s, s, ps, trees, c, node, node + s[node].right);
    if exact {
      SearchChildren(s0, s, ps, ts, c, v, node);
      SearchRight(s0, s, ps, ts, c, v, node);
    }
  }

  /** The search ends at a node whose count goes up. */
  lemma DescendFinds(s0: seq<Symbol>, s: seq<Symbol>, s': seq<Symbol>, ps: seq<Place>, trees: seq<Twig>, ts: Tables,
                     c: nat, v: Byte, node: nat, delta: Byte, exact: bool)
    requires Descends(s0, s, ps, trees, ts, c, v, node, exact) && c < |ps| && node < |s|
    requires delta == ParamsOf(ps[c].path).delta && s[node].count + delta < 0x100
    requires s' == s[node := s[node].(under := ToHalf(s[node].under + delta), count := s[node].count + delta)]
    requires exact ==> s[node].value == v
    ensures Visits(s0, s', ps, ps, trees, ts, c, v, node, exact)
    ensures exact ==> var t := TableAt(ts, ps[c].path); var p := ParamsOf(ps[c].path);
      && |t.counts| == VALUES && s[node].count == t.counts[v]
      && v * p.minimum + PassedAt(ps, ts, c, node) + s[node].under - s[node].count == Before(t, p, v)
  {
    hide Probes, Search, Mass, Passed, Sown, Visited;
    Raises(s0, s, s', ps, trees, c, node, delta);
    if exact {
      SearchFacts(s0, s, ps, ts, c, v, node);
      SearchOpen(s0, s, ps, ts, c, v, node);
      OpenFacts(s0, ps, ts, c);
      SearchFinds(s0, s, s', ps, ts, c, v, node);
    }
  }

  /** What has been passed where the search finds no child on its side. */
  lemma DescendStops(s0: seq<Symbol>, s: seq<Symbol>, ps: seq<Place>, trees: seq<Twig>, ts: Tables, c: nat, v: Byte,
                     node: nat)
    requires Descends(s0, s, ps, trees, ts, c, v, node, true) && c < |ps| && node < |s| && Stops(s, node, v)
    ensures var t := TableAt(ts, ps[c].path); var p := ParamsOf(ps[c].path);
      && |t.counts| == VALUES && t.counts[v] == 0
      && v * p.minimum + PassedAt(ps, ts, c, node) + (if v < s[node].value then 0 else s[node].under) == Before(t, p, v)
  {
    hide Probes, Search, Mass, Passed;
    SearchFacts(s0, s, ps, ts, c, v, node);
    SearchOpen(s0, s, ps, ts, c, v, node);
    OpenFacts(s0, ps, ts, c);
    StopFacts(s0, s, ps, ts, c, v, node);
  }

  /** Creating a symbol there; on the left the node has been counted up. */
  lemma DescendCreates(s0: seq<Symbol>, s: seq<Symbol>, s': seq<Symbol>, ps: seq<Place>, ps': seq<Place>,
                       trees: seq<Twig>, ts: Tables, c: nat, v: Byte, node: nat, left: bool, delta: Byte, exact: bool)
    requires Descends(s0, s, ps, trees, ts, c, v, node, exact) && c < |ps| == |trees|
    requires node < |ps| < |s| == ARENA_SIZE && delta == ParamsOf(ps[c].path).delta
    requires (if left then s[node].left else s[node].right) == 0
    requires exact ==> Stops(s, node, v) && (left <==> v < s[node].value)
    requires ps' == ps + [Gap(s, ps, c, v, node)]
    requires node < |ps|
    requires s' == s[node := if left
      then s[node].(under := ToHalf(s[node].under + delta), left := |ps| - node)
      else s[node].(right := |ps| - node)][|ps| := NewSymbol(v, delta)]
    ensures Visits(s0, s', ps, ps', trees[c := Attached(trees[c], node, left, |ps|)] + [Tip], ts, c, v, |ps|, exact)
  {
    hide Probes, Search, Mass, Passed, Sown, Visited;
    ProbeFacts(s0, s, ps, trees, c, node);
    var s1 := if left then s[node := s[node].(under := ToHalf(s[node].under + delta))] else s;
    ProbeOn(s0, s, s1, ps, trees, c, node, node);
    Attaches(s0, s1, s', ps, ps', trees, c, node, left, delta);
    if exact {
      SearchFacts(s0, s, ps, ts, c, v, node);
      SearchCreates(s0, s, s', ps, ps', ts, c, v, node);
    }
  }

  /** A context's first symbol. */
  lemma PlantsFirst(s: seq<Symbol>, s': seq<Symbol>, ps: seq<Place>, ps': seq<Place>, trees: seq<Twig>, ts: Tables,
                    c: nat, v: Byte, delta: Byte, exact: bool)
    requires Grown(s, ps, trees, 0, 0) && c < |ps| == |trees| && |ps| < |s| == ARENA_SIZE && s[c].symbols == 0
    requires delta == ParamsOf(ps[c].path).delta && (exact ==> Open(s, ps, ts, c))
    requires ps' == ps + [Place(c, 0, VALUES, ps[c].path + [v])]
    requires s' == s[c := s[c].(symbols := |ps| - c)][|ps| := NewSymbol(v, delta)]
    ensures Visits(s, s', ps, ps', trees[c := Fork(|ps|, Tip, Tip)] + [Tip], ts, c, v, |ps|, exact)
    ensures exact ==> var t := TableAt(ts, ps[c].path); var p := ParamsOf(ps[c].path);
      |t.counts| == VALUES && t.counts[v] == 0 && Before(t, p, v) == v * p.minimum
  {
    hide Grown, Mass, Passed, Sown, Visited;
    Plants(s, s', ps, ps', trees, c, delta);
    if exact {
      OpenFacts(s, ps, ts, c);
      FirstVisits(s, s', ps, ps', ts, c, v);
    }
  }

  /** What a subcontext's decoder looks for: the value whose slot holds the code, or, above all slots, the end. */
  ghost predicate Sought(t: Table, code: nat, v: Byte) {
    && |t.counts| == VALUES
    && if t.escapes + code < Total(t, SUBCONTEXT) then SlotHolds(t, SUBCONTEXT, code, v) else v == 0xFF
  }

  /** A subcontext's decoder goes by the code where the encoder goes by the value. */
  lemma DescendTries(s0: seq<Symbol>, s: seq<Symbol>, ps: seq<Place>, trees: seq<Twig>, ts: Tables, c: nat, v: Byte,
                     node: nat, code: nat)
    requires Descends(s0, s, ps, trees, ts, c, v, node, true) && c < |ps| && node < |s| && ps[c].path != []
    requires Sought(TableAt(ts, ps[c].path), code, v)
    ensures var t := TableAt(ts, ps[c].path);
      var here, after := s[node], PassedAt(ps, ts, c, node) + s[node].under;
      && (code >= after && here.right == 0 ==> Total(t, SUBCONTEXT) <= t.escapes + code)
      && (code < after - here.count && here.left == 0 ==> Total(t, SUBCONTEXT) <= t.escapes + code)
      && (code >= after && here.right != 0 ==> here.value < v)
      && (code < after - here.count ==> v < here.value)
      && (after - here.count <= code < after ==> v == here.value && t.escapes + code < Total(t, SUBCONTEXT))
  {
    hide Probes, Search, Mass, Passed, SlotHolds, Before;
    SearchFacts(s0, s, ps, ts, c, v, node);
    SearchByCode(s0, s, ps, ts, c, v, node, SUBCONTEXT, code);
    var t, here, after := TableAt(ts, ps[c].path), s[node], PassedAt(ps, ts, c, node) + s[node].under;
    if (code >= after && here.right == 0) || (code < after - here.count && here.left == 0) {
      StopsAbove(s0, s, ps, ts, c, v, node, code);
    }
    if here.right != 0 { RightRoom(s0, s, ps, ts, c, v, node); }
  }

  /** So does the root's, which finds gaps as well and there tells the value from the code. */
  lemma DescendInRoot(s0: seq<Symbol>, s: seq<Symbol>, ps: seq<Place>, trees: seq<Twig>, ts: Tables, v: Byte,
                      node: nat, code: nat)
    requires Descends(s0, s, ps, trees, ts, 0, v, node, true) && 1 <= |ps| && node < |s| && ps[0].path == []
    requires |TableAt(ts, []).counts| == VALUES && SlotHolds(TableAt(ts, []), ROOT, code, v)
    ensures var t, here := TableAt(ts, []), s[node];
      var after, before := PassedAt(ps, ts, 0, node) + here.under + here.value + 1, here.count + 1;
      && (code >= after <==> here.value < v) && (code < after - before <==> v < here.value)
      && (code >= after && here.right == 0 ==>
            v == here.value + 1 + code - after && Before(t, ROOT, v) == code && t.counts[v] == 0)
      && (code < after - before && here.left == 0 ==>
            v == here.value - (after - before - code) && Before(t, ROOT, v) == code && t.counts[v] == 0)
  {
    hide Probes, Search, Mass, Passed, SlotHolds, Before;
    SearchFacts(s0, s, ps, ts, 0, v, node);
    SearchByCode(s0, s, ps, ts, 0, v, node, ROOT, code);
    if Stops(s, node, v) { GapValue(s0, s, ps, ts, 0, v, node, code); }
  }

  lemma SeeksCode(s: seq<Symbol>, ps: seq<Place>, ts: Tables, c: nat, code: nat) returns (v: Byte)
    requires Open(s, ps, ts, c) && c < |ps| && ps[c].path != []
    ensures var t := TableAt(ts, ps[c].path);
      && TableOk(t, SUBCONTEXT) && Sought(t, code, v)
      && (t.escapes + code < Total(t, SUBCONTEXT) ==> v == Lookup(t, SUBCONTEXT, t.escapes + code))
  {
    hide SlotHolds, Lookup, Total;
    OpenFacts(s, ps, ts, c);
    var t := TableAt(ts, ps[c].path);
    v := 0xFF;
    if t.escapes + code < Total(t, SUBCONTEXT) {
      v := Lookup(t, SUBCONTEXT, t.escapes + code);
      LookupHolds(t, SUBCONTEXT, code);
    }
  }

  lemma RootSeeksCode(s: seq<Symbol>, ps: seq<Place>, ts: Tables, code: nat) returns (v: Byte)
    requires Open(s, ps, ts, 0) && 1 <= |ps| && ps[0].path == []
    requires var t := TableAt(ts, []); |t.counts| == VALUES && t.escapes + code < Total(t, ROOT)
    ensures var t := TableAt(ts, []);
      TableOk(t, ROOT) && SlotHolds(t, ROOT, code, v) && v == Lookup(t, ROOT, t.escapes + code)
  {
    hide SlotHolds, Lookup, Total;
    OpenFacts(s, ps, ts, 0);
    var t := TableAt(ts, []);
    v := Lookup(t, ROOT, t.escapes + code);
    LookupHolds(t, ROOT, code);
  }

  /** Where the tables are not known, the value does not matter. */
  lemma DescendsAny(s0: seq<Symbol>, s: seq<Symbol>, ps: seq<Place>, trees: seq<Twig>, ts: Tables, c: nat,
                    v: Byte, v': Byte, node: nat)
    requires Descends(s0, s, ps, trees, ts, c, v, node, false)
    ensures Descends(s0, s, ps, trees, ts, c, v', node, false)
  {
  }

  lemma VisitsAny(s0: seq<Symbol>, s: seq<Symbol>, ps0: seq<Place>, ps: seq<Place>, trees: seq<Twig>, ts: Tables,
                  c: nat, v: Byte, v': Byte, symbol: nat)
    requires Visits(s0, s, ps0, ps, trees, ts, c, v, symbol, false)
    ensures Visits(s0, s, ps0, ps, trees, ts, c, v', symbol, false)
  {
  }
}
