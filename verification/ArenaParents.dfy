/** Parent links: from the symbol of a byte in one context to its symbol in the next shorter one. */
module ArenaParents {
  import opened Octets
  import opened Frequencies
  import opened PpmModel
  import opened ArenaShape
  import opened ArenaForest
  import opened ArenaSearch

  /** Every slot is linked, except possibly slot `open`; 0 for none. */
  ghost predicate Linked(s: seq<Symbol>, ps: seq<Place>, open: nat) {
    |ps| <= |s| && Parents(s, ps, open)
  }

  /** One parent link rewritten. */
  ghost predicate Relinked(s: seq<Symbol>, s': seq<Symbol>, child: nat, symbol: Half) {
    child < |s| && s' == s[child := s[child].(parent := symbol)]
  }

  lemma CountedRelinked(s: seq<Symbol>, s': seq<Symbol>, ps: seq<Place>, ts: Tables, c: nat, v: Byte, child: nat,
                        symbol: Half)
    requires Counted(s, ps, ts, c, v) && Relinked(s, s', child, symbol)
    ensures Counted(s', ps, ts, c, v)
  {
    hide TreeOk, Mass, TablesOk, Raised, Total;
    var ts' := RaisedAt(ts, ps[c].path, v);
    PlacedKept(s, s', ps);
    forall d: nat | d < |ps| ensures TreeOk(s', ps, d, CountsAt(ts', ps, d)) {
      TreeSame(s, s', ps, d, CountsAt(ts', ps, d));
    }
    forall d: nat | d < |ps| ensures HeaderOk(s'[d], ps[d].path, ts) {
      assert HeaderOk(s[d], ps[d].path, ts);
    }
  }

  /** After a visit the slots linked before are linked still; a symbol that was there already is too. */
  lemma VisitedLinks(s0: seq<Symbol>, s: seq<Symbol>, ps0: seq<Place>, ps: seq<Place>,
                     ts: Tables, c: nat, v: Byte, symbol: nat, open: nat)
    requires Visited(s0, s, ps0, ps, ts, c, v, symbol) && Linked(s0, ps0, open)
    ensures |ps| <= |s|
    ensures forall i :: IsNode(ps, i) && i != open && i != symbol ==> ParentOk(s, ps, i)
    ensures IsNode(ps, symbol) && symbol < |ps0| && symbol != open ==> ParentOk(s, ps, symbol)
  {
    hide Counted, Forest, Headers, Known, Owns;
    CountedPlaced(s, ps, ts, c, v);
    forall i | IsNode(ps0, i) && i != open ensures ParentOk(s, ps, i) {
      assert ParentOk(s0, ps0, i) && SameTotals(s0[i], s[i]);
    }
  }

  lemma CountedPlaced(s: seq<Symbol>, ps: seq<Place>, ts: Tables, c: nat, v: Byte)
    requires Counted(s, ps, ts, c, v)
    ensures Placed(s, ps)
  {
  }

  /** Linking the open slot to the symbol just visited leaves only that symbol open. */
  lemma LinkOpen(s0: seq<Symbol>, s: seq<Symbol>, s': seq<Symbol>, ps0: seq<Place>, ps: seq<Place>,
                 ts: Tables, c: nat, v: Byte, symbol: nat, open: nat)
    requires Visited(s0, s, ps0, ps, ts, c, v, symbol) && Linked(s0, ps0, open)
    requires symbol < 0x1_0000 && symbol < |ps| && open != symbol
    requires if open == 0 then s' == s
      else
        && IsNode(ps0, open) && Relinked(s, s', open, symbol)
        && ps[open].path != [] && ps[symbol].path == ps[open].path[1..]
    ensures Linked(s', ps, symbol)
    ensures symbol < |ps0| ==> Linked(s', ps, 0)
  {
    VisitedLinks(s0, s, ps0, ps, ts, c, v, symbol, open);
    hide Visited;
    forall i | IsNode(ps, i) && i != symbol ensures ParentOk(s', ps, i) {
      if i != open { assert ParentOk(s, ps, i); }
    }
    if symbol < |ps0| && IsNode(ps, symbol) { assert ParentOk(s', ps, symbol); }
  }
}
