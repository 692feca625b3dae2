/** The search of one context's tree for a value, step by step, in terms of the tables the arena
    holds. Encoder and decoder choose their direction differently but make the same steps. */
module ArenaSearch {
  import opened Octets
  import opened Frequencies
  import opened PpmModel
  import opened ArenaShape
  import opened ArenaForest

  /** An arena in which context c may learn one more symbol. */
  ghost predicate Open(s: seq<Symbol>, ps: seq<Place>, ts: Tables, c: nat) {
    && ArenaOk(s, ps, ts)
    && c < |ps| < |s| == ARENA_SIZE
    && |ps[c].path| <= ORDER
  }

  ghost function RaisedCounts(ts: Tables, c: Context, v: Byte): seq<nat>
    requires TablesOk(ts)
  {
    TableAtOk(ts, c);
    Raised(TableAt(ts, c), ParamsOf(c), v).counts
  }

  /** The search for v in the tree of c has reached `node`; s0 is the arena it began with. */
  ghost predicate Search(s0: seq<Symbol>, s: seq<Symbol>, ps: seq<Place>, ts: Tables, c: nat, v: Byte, node: nat) {
    && Open(s0, ps, ts, c)
    && |CountsAt(ts, ps, c)| == VALUES
    && Descending(s0, s, ps, c, CountsAt(ts, ps, c), RaisedCounts(ts, ps[c].path, v), v, node)
  }

  /** The counts of all values below the range of `node`. */
  ghost function Passed(ps: seq<Place>, ts: Tables, c: nat, node: nat): nat
    requires c < |ps| && node < |ps| && ps[node].lo <= |CountsAt(ts, ps, c)|
  {
    Mass(CountsAt(ts, ps, c), 0, ps[node].lo)
  }

  /** The arena after one update of the tree of c for v, whose symbol is `symbol`. */
  ghost predicate Visited(s0: seq<Symbol>, s: seq<Symbol>, ps0: seq<Place>, ps: seq<Place>,
                          ts: Tables, c: nat, v: Byte, symbol: nat) {
    && Counted(s, ps, ts, c, v)
    && |s0| == |s| && c < |ps0| && ps0 <= ps
    && |ps| == |ps0| + (if Seen(ts, ps0[c].path, v) then 0 else 1)
    && Framed(s0, s, ps0, c)
    && Owns(ps, c, symbol) && ps[symbol].path == ps[c].path + [v]
    && (|ps0| < |ps| ==> symbol == |ps0| && s[symbol].parent == 0)
  }

  lemma OpenFacts(s: seq<Symbol>, ps: seq<Place>, ts: Tables, c: nat)
    requires Open(s, ps, ts, c)
    ensures |ps| < |s| && TableOk(TableAt(ts, ps[c].path), ParamsOf(ps[c].path))
    ensures CountsAt(ts, ps, c) == TableAt(ts, ps[c].path).counts
    ensures HeaderOk(s[c], ps[c].path, ts)
    ensures TreeOk(s, ps, c, CountsAt(ts, ps, c)) && Placed(s, ps)
  {
    TableAtOk(ts, ps[c].path);
  }

  lemma RaisedFacts(s: seq<Symbol>, ps: seq<Place>, ts: Tables, c: nat, v: Byte)
    requires Open(s, ps, ts, c)
    ensures TablesOk(ts) && Placed(s, ps)
    ensures RaisedBy(CountsAt(ts, ps, c), RaisedCounts(ts, ps[c].path, v), v, ParamsOf(ps[c].path).delta)
    ensures CountsAt(RaisedAt(ts, ps[c].path, v), ps, c) == RaisedCounts(ts, ps[c].path, v)
  {
    hide Mass, Total, Forest, Headers, Known, Placed;
    TableAtOk(ts, ps[c].path);
  }

  lemma MassWithin(counts: seq<nat>, lo: nat, hi: nat)
    requires lo <= hi <= |counts|
    ensures Mass(counts, lo, hi) <= Mass(counts, 0, |counts|)
  {
    MassSplit(counts, 0, lo, |counts|);
    MassSplit(counts, lo, hi, |counts|);
  }

  /** What the search may rely on at a node. */
  lemma SearchFacts(s0: seq<Symbol>, s: seq<Symbol>, ps: seq<Place>, ts: Tables, c: nat, v: Byte, node: nat)
    requires Search(s0, s, ps, ts, c, v, node)
    ensures 1 <= node < |ps| < |s| == |s0| && |CountsAt(ts, ps, c)| == VALUES
    ensures ps[node].lo <= s[node].value < ps[node].hi <= VALUES && ps[node].lo <= v < ps[node].hi
    ensures s[node].under + 3 < 0x1_0000 && s[node].count + ParamsOf(ps[c].path).delta < 0x100
    ensures s[node].count == CountsAt(ts, ps, c)[s[node].value]
    ensures Passed(ps, ts, c, node) + s[node].under == Mass(CountsAt(ts, ps, c), 0, s[node].value + 1)
    ensures s[node].count <= s[node].under
    ensures Mass(CountsAt(ts, ps, c), 0, s[node].value) + s[node].count
         == Mass(CountsAt(ts, ps, c), 0, s[node].value + 1)
  {
    hide Mass, LinksOk, Placed;
    OpenFacts(s0, ps, ts, c);
    SearchLinks(s0, s, ps, ts, c, v, node);
    var counts := CountsAt(ts, ps, c);
    assert NodeOk(s0[node], ps[node], counts);
    MassSplit(counts, 0, ps[node].lo, s[node].value + 1);
    MassWithin(counts, ps[node].lo, s[node].value + 1);
    MassLast(counts, ps[node].lo, s[node].value + 1);
    MassLast(counts, 0, s[node].value + 1);
  }

  /** The sums a search computes with stay below 16 bits. */
  lemma SearchRoom(s0: seq<Symbol>, s: seq<Symbol>, ps: seq<Place>, ts: Tables, c: nat, v: Byte, node: nat)
    requires Search(s0, s, ps, ts, c, v, node)
    ensures node < |ps| && node < |s| && c < |ps| && |CountsAt(ts, ps, c)| == VALUES && ps[node].lo <= VALUES
    ensures Passed(ps, ts, c, node) + s[node].under + VALUES * ParamsOf(ps[c].path).minimum < 0x1_0000
  {
    hide Mass, Search, TableOk;
    SearchFacts(s0, s, ps, ts, c, v, node);
    SearchOpen(s0, s, ps, ts, c, v, node);
    OpenFacts(s0, ps, ts, c);
    TotalBounds(TableAt(ts, ps[c].path), ParamsOf(ps[c].path));
    MassWithin(CountsAt(ts, ps, c), 0, s[node].value + 1);
  }

  lemma MassLast(counts: seq<nat>, lo: nat, hi: nat)
    requires lo < hi <= |counts|
    ensures Mass(counts, lo, hi) == Mass(counts, lo, hi - 1) + counts[hi - 1]
  {
  }

  lemma SearchBegins(s: seq<Symbol>, ps: seq<Place>, ts: Tables, c: nat, v: Byte)
    requires Open(s, ps, ts, c) && s[c].symbols != 0
    ensures Search(s, s, ps, ts, c, v, c + s[c].symbols)
    ensures ps[c + s[c].symbols].lo == 0 && Passed(ps, ts, c, c + s[c].symbols) == 0
  {
    OpenFacts(s, ps, ts, c);
    assert LinksOk(s, ps, c);
    DescentBegins(s, ps, c, CountsAt(ts, ps, c), RaisedCounts(ts, ps[c].path, v), v);
  }

  lemma SearchLeft(s0: seq<Symbol>, s: seq<Symbol>, s': seq<Symbol>, ps: seq<Place>, ts: Tables, c: nat, v: Byte,
                   node: nat)
    requires Search(s0, s, ps, ts, c, v, node) && node < |s|
    requires v < s[node].value && s[node].left != 0
    requires s[node].under + ParamsOf(ps[c].path).delta < 0x1_0000
    requires s' == s[node := s[node].(under := s[node].under + ParamsOf(ps[c].path).delta)]
    ensures Search(s0, s', ps, ts, c, v, node + s[node].left)
  {
    hide Placed, TreeOk, Mass, Descending, LinksOk, RaisedCounts, CountsAt, ArenaOk, TableOk, HeaderOk;
    RaisedFacts(s0, ps, ts, c, v);
    OpenFacts(s0, ps, ts, c);
    SearchLinks(s0, s, ps, ts, c, v, node);
    DescentLeft(s0, s, s', ps, c, CountsAt(ts, ps, c), RaisedCounts(ts, ps[c].path, v), v, ParamsOf(ps[c].path).delta,
      node);
  }

  lemma SearchLinks(s0: seq<Symbol>, s: seq<Symbol>, ps: seq<Place>, ts: Tables, c: nat, v: Byte, node: nat)
    requires Search(s0, s, ps, ts, c, v, node)
    ensures node < |ps| < |s| && s[node] == s0[node] && Owns(ps, c, node) && LinksOk(s, ps, node)
    ensures ps[node].lo <= v < ps[node].hi
  {
    hide Mass, TreeOk, PlaceOk, LinksOk;
    OpenFacts(s0, ps, ts, c);
    DescentHere(s0, s, ps, c, CountsAt(ts, ps, c), RaisedCounts(ts, ps[c].path, v), v, node);
  }

  /** What lies below the ranges of a node's children. */
  lemma SearchChildren(s0: seq<Symbol>, s: seq<Symbol>, ps: seq<Place>, ts: Tables, c: nat, v: Byte, node: nat)
    requires Search(s0, s, ps, ts, c, v, node)
    ensures node < |ps| <= |s| && |CountsAt(ts, ps, c)| == VALUES && ps[node].lo <= VALUES
    ensures var l := node + s[node].left; s[node].left != 0 ==>
      (l < |ps| && ps[l].lo <= VALUES && Passed(ps, ts, c, l) == Passed(ps, ts, c, node))
    ensures var r := node + s[node].right; s[node].right != 0 ==>
      (r < |ps| && ps[r].lo <= VALUES && Passed(ps, ts, c, r) == Passed(ps, ts, c, node) + s[node].under)
  {
    hide Mass, Search, CountsAt;
    SearchFacts(s0, s, ps, ts, c, v, node);
    SearchLinks(s0, s, ps, ts, c, v, node);
    assert s[node].left != 0 ==> ps[node + s[node].left].lo == ps[node].lo;
    assert s[node].right != 0 ==> ps[node + s[node].right].lo == s[node].value + 1;
  }

  lemma SearchRight(s0: seq<Symbol>, s: seq<Symbol>, ps: seq<Place>, ts: Tables, c: nat, v: Byte, node: nat)
    requires Search(s0, s, ps, ts, c, v, node) && node < |s|
    requires s[node].value < v && s[node].right != 0
    ensures Search(s0, s, ps, ts, c, v, node + s[node].right)
  {
    hide Placed, TreeOk, Mass, Descending, LinksOk, RaisedCounts, CountsAt, ArenaOk, TableOk, HeaderOk;
    RaisedFacts(s0, ps, ts, c, v);
    OpenFacts(s0, ps, ts, c);
    SearchLinks(s0, s, ps, ts, c, v, node);
    DescentRight(s0, s, ps, c, CountsAt(ts, ps, c), RaisedCounts(ts, ps[c].path, v), v, ParamsOf(ps[c].path).delta,
      node);
  }

  lemma SearchFinds(s0: seq<Symbol>, s: seq<Symbol>, s': seq<Symbol>, ps: seq<Place>, ts: Tables, c: nat, v: Byte,
                    node: nat)
    requires Search(s0, s, ps, ts, c, v, node) && node < |s|
    requires s[node].value == v
    requires s[node].under + ParamsOf(ps[c].path).delta < 0x1_0000 && s[node].count + ParamsOf(ps[c].path).delta < 0x100
    requires s' == s[node := s[node].(under := s[node].under + ParamsOf(ps[c].path).delta,
                                      count := s[node].count + ParamsOf(ps[c].path).delta)]
    ensures Visited(s0, s', ps, ps, ts, c, v, node)
    ensures Seen(ts, ps[c].path, v)
  {
    hide Placed, TreeOk, Mass, Descending, LinksOk, RaisedCounts, CountsAt, ArenaOk, TableOk, HeaderOk;
    RaisedFacts(s0, ps, ts, c, v);
    OpenFacts(s0, ps, ts, c);
    SearchLinks(s0, s, ps, ts, c, v, node);
    var counts, raised := CountsAt(ts, ps, c), RaisedCounts(ts, ps[c].path, v);
    DescentFinds(s0, s, s', ps, c, counts, raised, v, ParamsOf(ps[c].path).delta, node);
    NodeNames(s0, ps, ts, c, node);
    FramedBySearch(s0, s, s', ps, ts, c, v, node);
    ForestCounted(s0, s', ps, ps, ts, c, v);
  }

  lemma NodeNames(s: seq<Symbol>, ps: seq<Place>, ts: Tables, c: nat, node: nat)
    requires Open(s, ps, ts, c) && Owns(ps, c, node)
    ensures ps[node].path == ps[c].path + [s[node].value]
    ensures |CountsAt(ts, ps, c)| == VALUES && CountsAt(ts, ps, c)[s[node].value] != 0
  {
    OpenFacts(s, ps, ts, c);
    assert PlaceOk(s, ps, node) && NodeOk(s[node], ps[node], CountsAt(ts, ps, c));
  }

  /** The search itself only touches what lies under visited nodes. */
  lemma FramedBySearch(s0: seq<Symbol>, s: seq<Symbol>, s': seq<Symbol>, ps: seq<Place>, ts: Tables, c: nat, v: Byte,
                       node: nat)
    requires Search(s0, s, ps, ts, c, v, node) && Owns(ps, c, node) && |s'| == |s| && node < |s|
    requires forall i :: 0 <= i < |ps| && i != node ==> s'[i] == s[i]
    requires s'[node].symbols == s[node].symbols && SameTotals(s'[node], s[node])
    ensures Framed(s0, s', ps, c)
  {
    hide Mass;
    assert Inside(ps, node, node);
    forall i | Owns(ps, c, i)
      ensures s0[i].symbols == s[i].symbols && SameTotals(s0[i], s[i])
    {
      assert Inside(ps, node, i) || !Inside(ps, node, i);
    }
  }

  /** Where the search for v found no further child on v's side. */
  ghost predicate Stops(s: seq<Symbol>, node: nat, v: Byte)
    requires node < |s|
  {
    (v < s[node].value && s[node].left == 0) || (s[node].value < v && s[node].right == 0)
  }

  ghost function Gap(s: seq<Symbol>, ps: seq<Place>, c: nat, v: Byte, node: nat): Place
    requires node < |ps| <= |s| && c < |ps|
  {
    var path := ps[c].path + [v];
    if v < s[node].value then Place(c, ps[node].lo, s[node].value, path)
    else Place(c, s[node].value + 1, ps[node].hi, path)
  }

  /** Nothing is counted between where the search stops and v. */
  lemma StopFacts(s0: seq<Symbol>, s: seq<Symbol>, ps: seq<Place>, ts: Tables, c: nat, v: Byte, node: nat)
    requires Search(s0, s, ps, ts, c, v, node) && node < |s| && Stops(s, node, v)
    ensures node < |ps| <= |s| && |CountsAt(ts, ps, c)| == VALUES && CountsAt(ts, ps, c)[v] == 0
    ensures Mass(CountsAt(ts, ps, c), 0, v)
         == Passed(ps, ts, c, node) + if v < s[node].value then 0 else s[node].under
    ensures !Seen(ts, ps[c].path, v)
  {
    hide Mass, Placed;
    SearchLinks(s0, s, ps, ts, c, v, node);
    SearchFacts(s0, s, ps, ts, c, v, node);
    OpenFacts(s0, ps, ts, c);
    var counts := CountsAt(ts, ps, c);
    assert NodeOk(s0[node], ps[node], counts);
    var gap := if v < s[node].value then ps[node].lo else s[node].value + 1;
    MassSplit(counts, 0, gap, v);
    MassZero(counts, gap, v);
  }

  lemma SearchCreates(s0: seq<Symbol>, s: seq<Symbol>, s': seq<Symbol>, ps: seq<Place>, ps': seq<Place>,
                      ts: Tables, c: nat, v: Byte, node: nat)
    requires Search(s0, s, ps, ts, c, v, node) && node < |ps| < |s| && c < |ps| && Stops(s, node, v)
    requires s[node].under + ParamsOf(ps[c].path).delta < 0x1_0000 && |ps| - node < 0x1_0000
    requires ps' == ps + [Gap(s, ps, c, v, node)]
    requires s' == s[node := if v < s[node].value
      then s[node].(under := s[node].under + ParamsOf(ps[c].path).delta, left := |ps| - node)
      else s[node].(right := |ps| - node)][|ps| := NewSymbol(v, ParamsOf(ps[c].path).delta)]
    ensures Visited(s0, s', ps, ps', ts, c, v, |ps|)
  {
    hide Placed, TreeOk, Mass, Descending, LinksOk, RaisedCounts, CountsAt, ArenaOk, TableOk, HeaderOk;
    RaisedFacts(s0, ps, ts, c, v);
    OpenFacts(s0, ps, ts, c);
    StopFacts(s0, s, ps, ts, c, v, node);
    SearchLinks(s0, s, ps, ts, c, v, node);
    SearchFacts(s0, s, ps, ts, c, v, node);
    var counts, raised := CountsAt(ts, ps, c), RaisedCounts(ts, ps[c].path, v);
    var gap := Gap(s, ps, c, v, node);
    assert |s| == |s0|;
    DescentCreates(s0, s, s', ps, ps', c, counts, raised, v, ParamsOf(ps[c].path).delta, node, gap.lo, gap.hi);
    FramedBySearch(s0, s, s', ps, ts, c, v, node);
    ForestCounted(s0, s', ps, ps', ts, c, v);
  }

  lemma FirstVisits(s0: seq<Symbol>, s': seq<Symbol>, ps: seq<Place>, ps': seq<Place>, ts: Tables, c: nat, v: Byte)
    requires Open(s0, ps, ts, c) && s0[c].symbols == 0
    requires ps' == ps + [Place(c, 0, VALUES, ps[c].path + [v])]
    requires |ps| - c < 0x1_0000
    requires s' == s0[c := s0[c].(symbols := |ps| - c)][|ps| := NewSymbol(v, ParamsOf(ps[c].path).delta)]
    ensures Visited(s0, s', ps, ps', ts, c, v, |ps|)
    ensures |CountsAt(ts, ps, c)| == VALUES && CountsAt(ts, ps, c)[v] == 0
    ensures Mass(CountsAt(ts, ps, c), 0, v) == 0 && Mass(CountsAt(ts, ps, c), 0, VALUES) == 0
  {
    hide Placed, Mass, Descending, LinksOk, RaisedCounts, CountsAt, ArenaOk, TableOk, HeaderOk;
    RaisedFacts(s0, ps, ts, c, v);
    OpenFacts(s0, ps, ts, c);
    var counts, raised := CountsAt(ts, ps, c), RaisedCounts(ts, ps[c].path, v);
    MassZero(counts, 0, v);
    MassZero(counts, 0, VALUES);
    FirstSymbol(s0, s', ps, ps', c, counts, raised, v, ParamsOf(ps[c].path).delta);
    ForestCounted(s0, s', ps, ps', ts, c, v);
  }

  /** The decoder's comparison at a node: where the node's slot ends and how wide it is. */
  lemma SearchByCode(s0: seq<Symbol>, s: seq<Symbol>, ps: seq<Place>, ts: Tables, c: nat, v: Byte, node: nat,
                     p: Params, code: nat)
    requires Search(s0, s, ps, ts, c, v, node) && p == ParamsOf(ps[c].path)
    ensures |TableAt(ts, ps[c].path).counts| == VALUES && node < |ps| && ps[node].lo <= VALUES
      && |CountsAt(ts, ps, c)| == VALUES
    ensures var t := TableAt(ts, ps[c].path); var u := s[node].value;
      && Passed(ps, ts, c, node) + s[node].under + (u + 1) * p.minimum == Before(t, p, u + 1)
      && Before(t, p, u) + s[node].count + p.minimum == Before(t, p, u + 1)
      && (SlotHolds(t, p, code, v) ==> (code >= Before(t, p, u + 1) <==> u < v) && (code < Before(t, p, u) <==> v < u))
      && (Total(t, p) <= t.escapes + code ==> code >= Before(t, p, u + 1))
  {
    hide Search, Mass;
    SearchFacts(s0, s, ps, ts, c, v, node);
    SearchOpen(s0, s, ps, ts, c, v, node);
    OpenFacts(s0, ps, ts, c);
    var t := TableAt(ts, ps[c].path);
    var u: nat := s[node].value;
    BeforeNext(t, p, u);
    BeforeMonotone(t, p, u + 1, VALUES);
    if SlotHolds(t, p, code, v) {
      SlotOrder(t, p, code, v, s[node].value);
    }
  }

  lemma SearchOpen(s0: seq<Symbol>, s: seq<Symbol>, ps: seq<Place>, ts: Tables, c: nat, v: Byte, node: nat)
    requires Search(s0, s, ps, ts, c, v, node)
    ensures Open(s0, ps, ts, c)
  {
  }

  /** A right child leaves room above the node's value. */
  lemma RightRoom(s0: seq<Symbol>, s: seq<Symbol>, ps: seq<Place>, ts: Tables, c: nat, v: Byte, node: nat)
    requires Search(s0, s, ps, ts, c, v, node) && node < |s| && s[node].right != 0
    ensures s[node].value < 0xFF
  {
    hide Mass, TreeOk, Descending;
    OpenFacts(s0, ps, ts, c);
    SearchLinks(s0, s, ps, ts, c, v, node);
    assert PlaceOk(s0, ps, node + s[node].right);
  }

  /** Where the root's tree has a gap, a code in it names its value by its distance. */
  lemma GapValue(s0: seq<Symbol>, s: seq<Symbol>, ps: seq<Place>, ts: Tables, c: nat, v: Byte, node: nat, code: nat)
    requires Search(s0, s, ps, ts, c, v, node) && node < |s| && Stops(s, node, v) && ps[c].path == []
    requires |TableAt(ts, []).counts| == VALUES && SlotHolds(TableAt(ts, []), ROOT, code, v)
    ensures node < |ps| && ps[node].lo <= VALUES && |CountsAt(ts, ps, c)| == VALUES
    ensures code == Before(TableAt(ts, []), ROOT, v) && TableAt(ts, []).counts[v] == 0
    ensures s[node].value < v ==> code == Passed(ps, ts, c, node) + s[node].under + v
    ensures v < s[node].value ==> code == Passed(ps, ts, c, node) + v && s[node].under == s[node].count
  {
    hide Mass;
    SearchFacts(s0, s, ps, ts, c, v, node);
    StopFacts(s0, s, ps, ts, c, v, node);
    BeforeNext(TableAt(ts, []), ROOT, v);
    if v < s[node].value {
      StopLeftUnder(s0, s, ps, ts, c, v, node);
    }
  }

  lemma StopLeftUnder(s0: seq<Symbol>, s: seq<Symbol>, ps: seq<Place>, ts: Tables, c: nat, v: Byte, node: nat)
    requires Search(s0, s, ps, ts, c, v, node) && node < |s| && s[node].left == 0
    ensures s[node].under == s[node].count
  {
    hide Placed;
    SearchLinks(s0, s, ps, ts, c, v, node);
    OpenFacts(s0, ps, ts, c);
    var counts := CountsAt(ts, ps, c);
    assert NodeOk(s0[node], ps[node], counts);
    MassZero(counts, ps[node].lo, s[node].value);
  }

  /** A subcontext's search by code runs out of children only for a code above all slots. */
  lemma StopsAbove(s0: seq<Symbol>, s: seq<Symbol>, ps: seq<Place>, ts: Tables, c: nat, v: Byte, node: nat, code: nat)
    requires Search(s0, s, ps, ts, c, v, node) && node < |s| && ps[c].path != []
    requires |TableAt(ts, ps[c].path).counts| == VALUES
    requires var t := TableAt(ts, ps[c].path);
      t.escapes + code < Total(t, SUBCONTEXT) ==> SlotHolds(t, SUBCONTEXT, code, v)
    requires var t := TableAt(ts, ps[c].path); var u := s[node].value;
      || (code >= Before(t, SUBCONTEXT, u + 1) && s[node].right == 0)
      || (code < Before(t, SUBCONTEXT, u) && s[node].left == 0)
    ensures var t := TableAt(ts, ps[c].path); Total(t, SUBCONTEXT) <= t.escapes + code
  {
    SearchOpen(s0, s, ps, ts, c, v, node);
    hide Mass, Search, Before, Total;
    var t := TableAt(ts, ps[c].path);
    BeforeNext(t, SUBCONTEXT, v);
    if t.escapes + code < Total(t, SUBCONTEXT) {
      SearchByCode(s0, s, ps, ts, c, v, node, SUBCONTEXT, code);
      StopFacts(s0, s, ps, ts, c, v, node);
      assert false;
    }
  }

  lemma EmptyTotal(s: seq<Symbol>, ps: seq<Place>, ts: Tables, c: nat)
    requires Open(s, ps, ts, c) && s[c].symbols == 0 && ps[c].path != []
    ensures var t := TableAt(ts, ps[c].path); |t.counts| == VALUES && Total(t, SUBCONTEXT) == t.escapes
  {
    OpenFacts(s, ps, ts, c);
    MassZero(TableAt(ts, ps[c].path).counts, 0, VALUES);
  }

  /** In an empty root every value has a slot of width one. */
  lemma EmptyRootValue(s: seq<Symbol>, ps: seq<Place>, ts: Tables, c: nat, v: Byte, code: nat)
    requires Open(s, ps, ts, c) && s[c].symbols == 0 && ps[c].path == []
    requires |TableAt(ts, []).counts| == VALUES && SlotHolds(TableAt(ts, []), ROOT, code, v)
    ensures code == v == Before(TableAt(ts, []), ROOT, v) && TableAt(ts, []).counts[v] == 0
  {
    OpenFacts(s, ps, ts, c);
    MassZero(TableAt(ts, []).counts, 0, v);
    BeforeNext(TableAt(ts, []), ROOT, v);
  }
}
