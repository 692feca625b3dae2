/** All trees of the arena together: what one context's update leaves alone, and what halving
    the counts of one tree does. */
module ArenaForest {
  import opened Octets
  import opened Frequencies
  import opened PpmModel
  import opened ArenaShape

  ghost function CountsAt(ts: Tables, ps: seq<Place>, c: nat): seq<nat>
    requires c < |ps|
  {
    TableAt(ts, ps[c].path).counts
  }

  ghost predicate Forest(s: seq<Symbol>, ps: seq<Place>, ts: Tables)
    requires |ps| <= |s|
  {
    forall c: nat :: c < |ps| ==> TreeOk(s, ps, c, CountsAt(ts, ps, c))
  }

  ghost predicate HeaderOk(sym: Symbol, c: Context, ts: Tables) {
    var t := TableAt(ts, c);
    |t.counts| == VALUES && sym.escapes == t.escapes && sym.total == Total(t, ParamsOf(c))
  }

  ghost predicate Headers(s: seq<Symbol>, ps: seq<Place>, ts: Tables)
    requires |ps| <= |s|
  {
    forall c: nat :: c < |ps| ==> HeaderOk(s[c], ps[c].path, ts)
  }

  /** Only contexts that have a slot have a table. */
  ghost predicate Known(ps: seq<Place>, ts: Tables) {
    forall d :: d in ts ==> exists i :: 0 <= i < |ps| && ps[i].path == d
  }

  /** The parent of a slot stands for its string without the oldest byte. */
  ghost predicate ParentOk(s: seq<Symbol>, ps: seq<Place>, i: int)
    requires IsNode(ps, i) && |ps| <= |s|
  {
    s[i].parent < |ps| && ps[i].path != [] && ps[s[i].parent].path == ps[i].path[1..]
  }

  ghost predicate Parents(s: seq<Symbol>, ps: seq<Place>, except: int)
    requires |ps| <= |s|
  {
    forall i :: IsNode(ps, i) && i != except ==> ParentOk(s, ps, i)
  }

  ghost predicate ArenaOk(s: seq<Symbol>, ps: seq<Place>, ts: Tables) {
    TablesOk(ts) && Holds(s, ps, ts)
  }

  /** The arena holds exactly the tables ts. */
  ghost predicate Holds(s: seq<Symbol>, ps: seq<Place>, ts: Tables) {
    && Placed(s, ps)
    && Forest(s, ps, ts)
    && Headers(s, ps, ts)
    && Known(ps, ts)
  }

  ghost function RaisedAt(ts: Tables, c: Context, v: Byte): Tables
    requires TablesOk(ts)
  {
    TableAtOk(ts, c);
    ts[c := Raised(TableAt(ts, c), ParamsOf(c), v)]
  }

  /** Between the two halves of an update: the tree of c has counted v, its totals have not. */
  ghost predicate Counted(s: seq<Symbol>, ps: seq<Place>, ts: Tables, c: nat, v: Byte) {
    && TablesOk(ts)
    && Placed(s, ps)
    && c < |ps|
    && Forest(s, ps, RaisedAt(ts, ps[c].path, v))
    && Headers(s, ps, ts)
    && Known(ps, ts)
  }

  ghost predicate SameNode(a: Symbol, b: Symbol) {
    a.value == b.value && a.count == b.count && a.under == b.under && a.left == b.left && a.right == b.right
  }

  ghost predicate SameTotals(a: Symbol, b: Symbol) {
    a.escapes == b.escapes && a.total == b.total && a.parent == b.parent
  }

  /** What an update of the tree of c leaves alone. */
  ghost predicate Framed(s: seq<Symbol>, s': seq<Symbol>, ps: seq<Place>, c: nat) {
    && |s| == |s'| && |ps| <= |s|
    && (forall i :: 0 <= i < |ps| && !Owns(ps, c, i) ==> SameNode(s[i], s'[i]))
    && (forall i :: 0 <= i < |ps| && i != c ==> s[i].symbols == s'[i].symbols)
    && (forall i :: 0 <= i < |ps| ==> SameTotals(s[i], s'[i]))
  }

  lemma TreeFramed(s: seq<Symbol>, s': seq<Symbol>, ps: seq<Place>, ps': seq<Place>, c: nat, d: nat, counts: seq<nat>)
    requires Placed(s, ps) && Framed(s, s', ps, c) && c < |ps| && d < |ps| && c != d
    requires ps' == ps || (|ps'| == |ps| + 1 && ps <= ps' && ps'[|ps|].owner == c)
    requires |ps'| <= |s|
    requires TreeOk(s, ps, d, counts)
    ensures TreeOk(s', ps', d, counts)
  {
    hide Mass;
    forall i | Owns(ps', d, i) ensures NodeOk(s'[i], ps'[i], counts) {
      assert Owns(ps, d, i) && NodeOk(s[i], ps[i], counts) && !Owns(ps, c, i);
      assert SameNode(s[i], s'[i]);
    }
  }

  /** A tree update of c turns an arena into one that has counted v. */
  lemma ForestCounted(s: seq<Symbol>, s': seq<Symbol>, ps: seq<Place>, ps': seq<Place>, ts: Tables, c: nat, v: Byte)
    requires ArenaOk(s, ps, ts) && Framed(s, s', ps, c) && c < |ps|
    requires Placed(s', ps')
    requires ps' == ps
      || (|ps'| == |ps| + 1 && ps <= ps' && ps'[|ps|].owner == c && s'[|ps|] == NewSymbol(v, s'[|ps|].count))
    requires TreeOk(s', ps', c, CountsAt(RaisedAt(ts, ps[c].path, v), ps, c))
    ensures Counted(s', ps', ts, c, v)
  {
    hide TreeOk, TablesOk, Total;
    var ts' := RaisedAt(ts, ps[c].path, v);
    forall d: nat | d < |ps'| ensures TreeOk(s', ps', d, CountsAt(ts', ps', d)) {
      if d == |ps| {
        assert ps'[..d] == ps;
        FreshContext(s', ps', ts, ts', c, d);
      } else if d != c {
        assert TreeOk(s, ps, d, CountsAt(ts, ps, d));
        TreeFramed(s, s', ps, ps', c, d, CountsAt(ts, ps, d));
      }
    }
    forall d: nat | d < |ps'| ensures HeaderOk(s'[d], ps'[d].path, ts) {
      if d == |ps| {
        assert ps'[..d] == ps;
        FreshHeader(s', ps', ts, d);
      } else {
        assert HeaderOk(s[d], ps[d].path, ts) && SameTotals(s[d], s'[d]);
      }
    }
    forall d | d in ts ensures exists i :: 0 <= i < |ps'| && ps'[i].path == d {
      var i :| 0 <= i < |ps| && ps[i].path == d;
      assert ps'[i].path == d;
    }
  }

  lemma UnknownPath(s: seq<Symbol>, ps: seq<Place>, ts: Tables, d: nat)
    requires Placed(s, ps) && 1 <= d && |ps| == d + 1 && Known(ps[..d], ts)
    ensures ps[d].path !in ts && ps[d].path != []
  {
    assert PlaceOk(s, ps, d);
    assert forall i :: 0 <= i < d ==> ps[..d][i].path == ps[i].path != ps[d].path;
  }

  lemma FreshContext(s: seq<Symbol>, ps: seq<Place>, ts0: Tables, ts: Tables, c: nat, d: nat)
    requires Placed(s, ps) && 1 <= d && |ps| == d + 1 && s[d].symbols == 0
    requires c < d && Known(ps[..d], ts0) && ps[c].path in ts && ts == ts0[ps[c].path := ts[ps[c].path]]
    ensures TreeOk(s, ps, d, CountsAt(ts, ps, d))
  {
    UnknownPath(s, ps, ts0, d);
    assert ps[c].path != ps[d].path;
    forall i ensures !Owns(ps, d, i) {
      if IsNode(ps, i) { assert PlaceOk(s, ps, i); }
    }
  }

  lemma FreshHeader(s: seq<Symbol>, ps: seq<Place>, ts: Tables, d: nat)
    requires Placed(s, ps) && 1 <= d && |ps| == d + 1 && Known(ps[..d], ts)
    requires s[d].escapes == 0 && s[d].total == 0
    ensures HeaderOk(s[d], ps[d].path, ts)
  {
    UnknownPath(s, ps, ts, d);
    MassZero(NoCounts(), 0, VALUES);
  }

  /** Same trees, one context with new totals. */
  ghost predicate Retotalled(s: seq<Symbol>, s': seq<Symbol>, c: nat) {
    && c < |s| == |s'|
    && s' == s[c := s[c].(escapes := s'[c].escapes, total := s'[c].total)]
  }

  lemma TreeSame(s: seq<Symbol>, s': seq<Symbol>, ps: seq<Place>, d: nat, counts: seq<nat>)
    requires d < |ps| <= |s| == |s'| && TreeOk(s, ps, d, counts)
    requires forall i :: 0 <= i < |ps| ==> SameNode(s[i], s'[i]) && s[i].symbols == s'[i].symbols
    ensures TreeOk(s', ps, d, counts)
  {
    hide Mass;
    forall i | Owns(ps, d, i) ensures NodeOk(s'[i], ps[i], counts) {
      assert NodeOk(s[i], ps[i], counts) && SameNode(s[i], s'[i]);
    }
  }

  /** Once the totals of c are brought up to date the arena holds the raised table. */
  lemma CountedThenTotalled(s: seq<Symbol>, s': seq<Symbol>, ps: seq<Place>, ts: Tables, c: nat, v: Byte)
    requires Counted(s, ps, ts, c, v) && Retotalled(s, s', c)
    requires HeaderOk(s'[c], ps[c].path, RaisedAt(ts, ps[c].path, v))
    ensures Holds(s', ps, RaisedAt(ts, ps[c].path, v))
  {
    hide TreeOk, Total, Raised, TablesOk;
    var ts' := RaisedAt(ts, ps[c].path, v);
    PlacedKept(s, s', ps);
    forall d: nat | d < |ps| ensures TreeOk(s', ps, d, CountsAt(ts', ps, d)) {
      TreeSame(s, s', ps, d, CountsAt(ts', ps, d));
    }
    forall d: nat | d < |ps| ensures HeaderOk(s'[d], ps[d].path, ts') {
      assert d != c ==> HeaderOk(s[d], ps[d].path, ts) && ps[d].path != ps[c].path;
    }
    forall d | d in ts' ensures exists i :: 0 <= i < |ps| && ps[i].path == d {
      assert d == ps[c].path || d in ts;
    }
  }
}
