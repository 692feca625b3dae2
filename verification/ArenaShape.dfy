/** What the arena of enet/compress.c looks like between two steps, and how the single writes of
    its macros change it. Every slot is at once a node of the binary indexed tree of its owner
    context and a context of its own. Ghost places record, for every slot in use, its owner, the
    range of values its subtree may hold and the string of bytes it stands for. */
module ArenaShape {
  import opened Octets
  import opened Frequencies
  import opened PpmModel

  type Half = x: int | 0 <= x < 0x1_0000

  /** What an assignment to 16 bits leaves. */
  function ToHalf(x: int): (half: Half)
    ensures 0 <= x < 0x1_0000 ==> half == x
  {
    x % 0x1_0000
  }

  /** ENetSymbol; links are distances to later slots, 0 for none. */
  datatype Symbol = Symbol(
    value: Byte, count: Byte, under: Half, left: Half, right: Half,
    symbols: Half, escapes: Half, total: Half, parent: Half)

  datatype Place = Place(owner: nat, lo: nat, hi: nat, path: Context)

  const ROOT_PLACE := Place(0, 0, VALUES, [])

  function NewSymbol(value: Byte, count: Byte): Symbol {
    Symbol(value, count, count, 0, 0, 0, 0, 0, 0)
  }

  /** Slot i is in use as a tree node (slot 0 is the root context, which no tree holds). */
  predicate IsNode(ps: seq<Place>, i: int) {
    1 <= i < |ps|
  }

  predicate Owns(ps: seq<Place>, c: nat, i: int) {
    IsNode(ps, i) && ps[i].owner == c
  }

  ghost predicate PlaceOk(s: seq<Symbol>, ps: seq<Place>, i: int)
    requires IsNode(ps, i) && |ps| <= |s|
  {
    var p := ps[i];
    && p.owner < i
    && 1 <= |p.path| <= ORDER + 1
    && p.path == ps[p.owner].path + [s[i].value]
    && p.lo <= s[i].value < p.hi <= VALUES
  }

  /** The links of slot i lead forward, to slots of the same owner with the value range they split off. */
  ghost predicate LinksOk(s: seq<Symbol>, ps: seq<Place>, i: int)
    requires 0 <= i < |ps| <= |s|
  {
    && (IsNode(ps, i) && s[i].left != 0 ==>
        Owns(ps, ps[i].owner, i + s[i].left) &&
        ps[i + s[i].left].lo == ps[i].lo && ps[i + s[i].left].hi == s[i].value)
    && (IsNode(ps, i) && s[i].right != 0 ==>
        Owns(ps, ps[i].owner, i + s[i].right) &&
        ps[i + s[i].right].lo == s[i].value + 1 && ps[i + s[i].right].hi == ps[i].hi)
    && (s[i].symbols != 0 ==>
        Owns(ps, i, i + s[i].symbols) &&
        ps[i + s[i].symbols].lo == 0 && ps[i + s[i].symbols].hi == VALUES)
  }

  /** The range of a later place is disjoint from that of a node, or inside one of its two sides. */
  ghost predicate Apart(value: Byte, p: Place, later: Place) {
    || later.hi <= p.lo
    || p.hi <= later.lo
    || (p.lo <= later.lo && later.hi <= value)
    || (value < later.lo && later.hi <= p.hi)
  }

  ghost predicate Aside(s: seq<Symbol>, ps: seq<Place>, i: int, j: int)
    requires IsNode(ps, i) && IsNode(ps, j) && |ps| <= |s|
  {
    ps[i].owner == ps[j].owner ==> Apart(s[i].value, ps[i], ps[j])
  }

  ghost predicate Placed(s: seq<Symbol>, ps: seq<Place>) {
    && 1 <= |ps| <= |s|
    && ps[0] == ROOT_PLACE
    && (forall i {:trigger PlaceOk(s, ps, i)} :: IsNode(ps, i) ==> PlaceOk(s, ps, i))
    && (forall i {:trigger LinksOk(s, ps, i)} :: 0 <= i < |ps| ==> LinksOk(s, ps, i))
    && (forall i, j {:trigger Aside(s, ps, i, j)} :: IsNode(ps, i) && IsNode(ps, j) && i < j ==> Aside(s, ps, i, j))
    && (forall i, j :: 0 <= i < j < |ps| ==> ps[i].path != ps[j].path)
  }

  ghost predicate Zero(counts: seq<nat>, lo: int, hi: int) {
    forall v :: lo <= v < hi && 0 <= v < |counts| ==> counts[v] == 0
  }

  /** A node holds its value's count, and under it the counts of its left subtree and its own;
      where a child is missing, no value of that side has been seen. */
  ghost predicate NodeOk(sym: Symbol, p: Place, counts: seq<nat>) {
    && |counts| == VALUES
    && p.lo <= sym.value < p.hi <= VALUES
    && 1 <= sym.count == counts[sym.value]
    && sym.under == Mass(counts, p.lo, sym.value + 1)
    && (sym.left == 0 ==> Zero(counts, p.lo, sym.value))
    && (sym.right == 0 ==> Zero(counts, sym.value + 1, p.hi))
  }

  /** All nodes of one context's tree agree with its counts. */
  ghost predicate TreeOk(s: seq<Symbol>, ps: seq<Place>, c: nat, counts: seq<nat>)
    requires c < |ps| <= |s|
  {
    && (forall i {:trigger NodeOk(s[i], ps[i], counts)} :: Owns(ps, c, i) ==> NodeOk(s[i], ps[i], counts))
    && (s[c].symbols == 0 ==> Zero(counts, 0, VALUES))
  }

  /** Position in the search for v: the nodes whose range is inside the current node's range are
      still as they were; all others of the owner already agree with the raised counts. */
  ghost predicate Inside(ps: seq<Place>, node: int, i: int)
    requires IsNode(ps, node) && IsNode(ps, i)
  {
    ps[node].lo <= ps[i].lo && ps[i].hi <= ps[node].hi
  }

  ghost predicate Descending(s0: seq<Symbol>, s: seq<Symbol>, ps: seq<Place>, c: nat, counts: seq<nat>,
                             raised: seq<nat>, v: Byte, node: int)
    requires |ps| <= |s0| && |counts| == |raised| == VALUES
  {
    && |s| == |s0|
    && Owns(ps, c, node) && ps[node].lo <= v < ps[node].hi
    && (forall i :: 0 <= i < |s| && !Owns(ps, c, i) ==> s[i] == s0[i])
    && (forall i :: Owns(ps, c, i) && Inside(ps, node, i) ==> s[i] == s0[i])
    && (forall i :: Owns(ps, c, i) && !Inside(ps, node, i) ==>
          ps[i].lo <= s0[i].value < VALUES &&
          s[i] == s0[i].(under := s[i].under) && s[i].under == Mass(raised, ps[i].lo, s0[i].value + 1))
  }

  /** counts with v raised. */
  ghost predicate RaisedBy(counts: seq<nat>, raised: seq<nat>, v: Byte, amount: nat) {
    |counts| == VALUES && raised == counts[v := counts[v] + amount]
  }

  /** The search begins at the tree's first node. */
  lemma DescentBegins(s: seq<Symbol>, ps: seq<Place>, c: nat, counts: seq<nat>, raised: seq<nat>, v: Byte)
    requires Placed(s, ps) && c < |ps| && |counts| == |raised| == VALUES
    requires s[c].symbols != 0
    ensures Descending(s, s, ps, c, counts, raised, v, c + s[c].symbols)
  {
    assert LinksOk(s, ps, c);
    forall i | Owns(ps, c, i) ensures Inside(ps, c + s[c].symbols, i) {
      assert PlaceOk(s, ps, i);
    }
  }

  /** Two different nodes inside the current range: one side or the other of the current value. */
  lemma Sides(s: seq<Symbol>, ps: seq<Place>, c: nat, node: int, i: int)
    requires Placed(s, ps) && Owns(ps, c, node) && Owns(ps, c, i) && Inside(ps, node, i) && i != node
    ensures ps[i].hi <= s[node].value || s[node].value < ps[i].lo
  {
    assert PlaceOk(s, ps, i) && PlaceOk(s, ps, node);
    assert i < node ==> Aside(s, ps, i, node);
    assert node < i ==> Aside(s, ps, node, i);
  }

  /** The node reached is still as it was. */
  lemma DescentHere(s0: seq<Symbol>, s: seq<Symbol>, ps: seq<Place>, c: nat, counts: seq<nat>, raised: seq<nat>,
                    v: Byte, node: int)
    requires Placed(s0, ps) && |counts| == |raised| == VALUES && Descending(s0, s, ps, c, counts, raised, v, node)
    ensures |s| == |s0| && s[node] == s0[node] && PlaceOk(s, ps, node) && LinksOk(s, ps, node)
  {
    hide Mass;
    assert Inside(ps, node, node);
    assert PlaceOk(s0, ps, node) && LinksOk(s0, ps, node);
  }

  lemma DescentLeft(s0: seq<Symbol>, s: seq<Symbol>, s': seq<Symbol>, ps: seq<Place>, c: nat,
                    counts: seq<nat>, raised: seq<nat>, v: Byte, amount: nat, node: int)
    requires Placed(s0, ps) && c < |ps| && TreeOk(s0, ps, c, counts) && RaisedBy(counts, raised, v, amount)
    requires Descending(s0, s, ps, c, counts, raised, v, node)
    requires v < s[node].value && s[node].left != 0
    requires s[node].under + amount < 0x1_0000
    requires s' == s[node := s[node].(under := s[node].under + amount)]
    ensures Descending(s0, s', ps, c, counts, raised, v, node + s[node].left)
  {
    hide Mass;
    assert PlaceOk(s0, ps, node) && LinksOk(s0, ps, node) && NodeOk(s0[node], ps[node], counts);
    var child := node + s[node].left;
    MassRaised(counts, v, amount, ps[node].lo, s0[node].value + 1);
    forall i | Owns(ps, c, i) && !Inside(ps, child, i)
      ensures ps[i].lo <= s0[i].value < VALUES
      ensures s'[i] == s0[i].(under := s'[i].under) && s'[i].under == Mass(raised, ps[i].lo, s0[i].value + 1)
    {
      assert PlaceOk(s0, ps, i) && NodeOk(s0[i], ps[i], counts);
      if Inside(ps, node, i) && i != node {
        Sides(s0, ps, c, node, i);
        MassRaised(counts, v, amount, ps[i].lo, s0[i].value + 1);
      }
    }
    assert !Inside(ps, child, node);
  }

  lemma DescentRight(s0: seq<Symbol>, s: seq<Symbol>, ps: seq<Place>, c: nat,
                     counts: seq<nat>, raised: seq<nat>, v: Byte, amount: nat, node: int)
    requires Placed(s0, ps) && c < |ps| && TreeOk(s0, ps, c, counts) && RaisedBy(counts, raised, v, amount)
    requires Descending(s0, s, ps, c, counts, raised, v, node)
    requires s[node].value < v && s[node].right != 0
    ensures Descending(s0, s, ps, c, counts, raised, v, node + s[node].right)
  {
    hide Mass;
    assert PlaceOk(s0, ps, node) && LinksOk(s0, ps, node);
    var child := node + s[node].right;
    forall i | Owns(ps, c, i) && !Inside(ps, child, i)
      ensures ps[i].lo <= s0[i].value < VALUES
      ensures s[i] == s0[i].(under := s[i].under) && s[i].under == Mass(raised, ps[i].lo, s0[i].value + 1)
    {
      assert PlaceOk(s0, ps, i) && NodeOk(s0[i], ps[i], counts);
      if Inside(ps, node, i) {
        if i != node {
          Sides(s0, ps, c, node, i);
        }
        MassRaised(counts, v, amount, ps[i].lo, s0[i].value + 1);
      }
    }
  }

  /** Writes that touch neither values nor links keep every place. */
  ghost predicate SameShape(a: Symbol, b: Symbol) {
    a.value == b.value && a.left == b.left && a.right == b.right && a.symbols == b.symbols
  }

  lemma PlacedKept(s: seq<Symbol>, s': seq<Symbol>, ps: seq<Place>)
    requires Placed(s, ps) && |s'| == |s|
    requires forall i :: 0 <= i < |ps| ==> SameShape(s[i], s'[i])
    ensures Placed(s', ps)
  {
    forall i | IsNode(ps, i) ensures PlaceOk(s', ps, i) {
      assert PlaceOk(s, ps, i) && SameShape(s[i], s'[i]);
    }
    forall i | 0 <= i < |ps| ensures LinksOk(s', ps, i) {
      assert LinksOk(s, ps, i) && SameShape(s[i], s'[i]);
    }
    forall i, j | IsNode(ps, i) && IsNode(ps, j) && i < j ensures Aside(s', ps, i, j) {
      assert Aside(s, ps, i, j) && SameShape(s[i], s'[i]);
    }
  }

  /** The search ends at the node of v itself. */
  lemma DescentFinds(s0: seq<Symbol>, s: seq<Symbol>, s': seq<Symbol>, ps: seq<Place>, c: nat,
                     counts: seq<nat>, raised: seq<nat>, v: Byte, amount: nat, node: int)
    requires Placed(s0, ps) && c < |ps| && TreeOk(s0, ps, c, counts) && RaisedBy(counts, raised, v, amount)
    requires Descending(s0, s, ps, c, counts, raised, v, node)
    requires s[node].value == v
    requires s[node].under + amount < 0x1_0000 && s[node].count + amount < 0x100
    requires s' == s[node := s[node].(under := s[node].under + amount, count := s[node].count + amount)]
    ensures Placed(s', ps) && TreeOk(s', ps, c, raised)
    ensures forall i :: 0 <= i < |s'| && !Owns(ps, c, i) ==> s'[i] == s0[i]
  {
    hide Mass;
    assert PlaceOk(s0, ps, node) && NodeOk(s0[node], ps[node], counts);
    forall i | Owns(ps, c, i) ensures NodeOk(s'[i], ps[i], raised) {
      assert PlaceOk(s0, ps, i) && NodeOk(s0[i], ps[i], counts);
      if i != node {
        if Inside(ps, node, i) {
          Sides(s0, ps, c, node, i);
        }
        NeverTwice(s0, ps, c, node, i);
      }
      MassRaised(counts, v, amount, ps[i].lo, s0[i].value + 1);
      ZeroElsewhere(s0, ps, c, counts, node, i);
    }
    forall i | 0 <= i < |ps| ensures SameShape(s0[i], s'[i]) {
      if Owns(ps, c, i) { }
    }
    PlacedKept(s0, s', ps);
    assert LinksOk(s0, ps, c);
  }

  /** A value has one node at most. */
  lemma NeverTwice(s: seq<Symbol>, ps: seq<Place>, c: nat, i: int, j: int)
    requires Placed(s, ps) && Owns(ps, c, i) && Owns(ps, c, j) && i != j
    ensures s[i].value != s[j].value
  {
    assert PlaceOk(s, ps, i) && PlaceOk(s, ps, j);
    if i < j {
      assert Aside(s, ps, i, j);
    } else {
      assert Aside(s, ps, j, i);
    }
  }

  /** The value of one node is not in the empty sides of another. */
  lemma ZeroElsewhere(s: seq<Symbol>, ps: seq<Place>, c: nat, counts: seq<nat>, node: int, i: int)
    requires Placed(s, ps) && c < |ps| && TreeOk(s, ps, c, counts) && Owns(ps, c, node) && Owns(ps, c, i)
    ensures s[i].left == 0 ==> !(ps[i].lo <= s[node].value < s[i].value)
    ensures s[i].right == 0 ==> !(s[i].value < s[node].value < ps[i].hi)
  {
    hide Mass;
    assert NodeOk(s[i], ps[i], counts) && NodeOk(s[node], ps[node], counts);
  }

  /** A symbol is created for v in the gap [lo, hi) of context c's tree. */
  ghost predicate Extends(s0: seq<Symbol>, s': seq<Symbol>, ps: seq<Place>, ps': seq<Place>,
                          c: nat, v: Byte, amount: Byte, lo: nat, hi: nat) {
    && 1 <= |ps| < |s0| == |s'|
    && c < |ps| && |ps[c].path| <= ORDER
    && lo <= v < hi <= VALUES
    && ps' == ps + [Place(c, lo, hi, ps[c].path + [v])]
    && s'[|ps|] == NewSymbol(v, amount)
  }

  /** A path names its owner and its value. */
  lemma PathNames(s: seq<Symbol>, ps: seq<Place>, i: nat, c: nat, v: Byte)
    requires Placed(s, ps) && i < |ps| && c < |ps|
    ensures ps[i].path == ps[c].path + [v] ==> Owns(ps, c, i) && s[i].value == v
  {
    if i != 0 {
      assert PlaceOk(s, ps, i);
      var p := ps[i].path;
      assert p[..|p| - 1] == ps[ps[i].owner].path && p[|p| - 1] == s[i].value;
      assert (ps[c].path + [v])[..|ps[c].path|] == ps[c].path;
      assert ps[i].owner < c ==> ps[ps[i].owner].path != ps[c].path;
      assert c < ps[i].owner ==> ps[c].path != ps[ps[i].owner].path;
    }
  }

  lemma LinksExtended(s: seq<Symbol>, s': seq<Symbol>, ps: seq<Place>, ps': seq<Place>, i: nat)
    requires i < |ps| <= |s| == |s'| && |ps'| <= |s| && ps <= ps'
    requires SameShape(s[i], s'[i]) && LinksOk(s, ps, i)
    ensures LinksOk(s', ps', i)
  {
  }

  lemma PlacedExtended(s0: seq<Symbol>, s': seq<Symbol>, ps: seq<Place>, ps': seq<Place>,
                       c: nat, v: Byte, amount: Byte, lo: nat, hi: nat)
    requires Placed(s0, ps) && Extends(s0, s', ps, ps', c, v, amount, lo, hi)
    requires forall i :: 0 <= i < |ps| ==> s'[i].value == s0[i].value && LinksOk(s', ps', i)
    requires forall i :: Owns(ps, c, i) ==> s0[i].value != v && Apart(s0[i].value, ps[i], ps'[|ps|])
    ensures Placed(s', ps')
  {
    var k := |ps|;
    forall i | IsNode(ps', i) ensures PlaceOk(s', ps', i) {
      if i < k { assert PlaceOk(s0, ps, i); }
    }
    forall i, j | IsNode(ps', i) && IsNode(ps', j) && i < j ensures Aside(s', ps', i, j) {
      if j < k { assert Aside(s0, ps, i, j); } else { assert IsNode(ps, i); }
    }
    forall i, j | 0 <= i < j < |ps'| ensures ps'[i].path != ps'[j].path {
      if j == k {
        PathNames(s0, ps, i, c, v);
      }
    }
    assert LinksOk(s', ps', k);
  }

  lemma EmptyTree(s: seq<Symbol>, ps: seq<Place>, c: nat, counts: seq<nat>, i: int)
    requires c < |ps| <= |s| && TreeOk(s, ps, c, counts)
    ensures s[c].symbols == 0 ==> !Owns(ps, c, i)
  {
    hide Mass;
    assert Owns(ps, c, i) ==> NodeOk(s[i], ps[i], counts);
  }

  /** The first symbol of a context. */
  lemma FirstSymbol(s0: seq<Symbol>, s': seq<Symbol>, ps: seq<Place>, ps': seq<Place>, c: nat,
                    counts: seq<nat>, raised: seq<nat>, v: Byte, amount: Byte)
    requires Placed(s0, ps) && Extends(s0, s', ps, ps', c, v, amount, 0, VALUES)
    requires TreeOk(s0, ps, c, counts) && RaisedBy(counts, raised, v, amount) && 1 <= amount
    requires s0[c].symbols == 0
    requires |ps| - c < 0x1_0000
    requires s' == s0[c := s0[c].(symbols := |ps| - c)][|ps| := NewSymbol(v, amount)]
    ensures counts[v] == 0
    ensures Placed(s', ps') && TreeOk(s', ps', c, raised)
  {
    hide Mass, Apart;
    var k := |ps|;
    forall i ensures !Owns(ps, c, i) {
      EmptyTree(s0, ps, c, counts, i);
    }
    forall i | 0 <= i < k ensures s'[i].value == s0[i].value && LinksOk(s', ps', i) {
      LinksAt(s0, ps, i);
      if i != c {
        LinksExtended(s0, s', ps, ps', i);
      } else {
        LinksExtended(s0, s0, ps, ps', i);
      }
    }
    PlacedExtended(s0, s', ps, ps', c, v, amount, 0, VALUES);
    FreshNode(counts, raised, v, amount, 0, VALUES);
    assert forall i :: Owns(ps', c, i) ==> i == k;
  }

  /** A node just created for v in a gap where nothing had been counted. */
  lemma FreshNode(counts: seq<nat>, raised: seq<nat>, v: Byte, amount: Byte, lo: nat, hi: nat)
    requires RaisedBy(counts, raised, v, amount) && 1 <= amount
    requires lo <= v < hi <= VALUES && Zero(counts, lo, hi)
    ensures NodeOk(NewSymbol(v, amount), Place(0, lo, hi, []), raised)
    ensures forall c, path :: NodeOk(NewSymbol(v, amount), Place(c, lo, hi, path), raised)
  {
    MassZero(counts, lo, v + 1);
    MassRaised(counts, v, amount, lo, v + 1);
  }

  /** The gap left or right of the node where the search for v stops. */
  ghost predicate StopsAt(s: seq<Symbol>, ps: seq<Place>, node: int, v: Byte, lo: int, hi: int)
    requires IsNode(ps, node) && |ps| <= |s|
  {
    || (v < s[node].value && s[node].left == 0 && lo == ps[node].lo && hi == s[node].value)
    || (s[node].value < v && s[node].right == 0 && lo == s[node].value + 1 && hi == ps[node].hi)
  }

  /** Every other node of the tree keeps clear of the gap. */
  lemma GapIsApart(s: seq<Symbol>, ps: seq<Place>, c: nat, counts: seq<nat>, v: Byte,
                   node: int, i: int, gap: Place)
    requires Placed(s, ps) && c < |ps| && TreeOk(s, ps, c, counts)
    requires Owns(ps, c, node) && Owns(ps, c, i) && ps[node].lo <= v < ps[node].hi
    requires StopsAt(s, ps, node, v, gap.lo, gap.hi)
    ensures s[i].value != v && Apart(s[i].value, ps[i], gap)
    ensures ps[i].lo <= v < s[i].value && !Inside(ps, node, i) ==> s[i].left != 0
    ensures s[i].value < v < ps[i].hi && !Inside(ps, node, i) ==> s[i].right != 0
    ensures i != node && Inside(ps, node, i) ==> v < ps[i].lo || ps[i].hi <= v
  {
    hide Mass;
    assert NodeOk(s[i], ps[i], counts) && NodeOk(s[node], ps[node], counts);
    assert i < node ==> Aside(s, ps, i, node);
    assert node < i ==> Aside(s, ps, node, i);
  }

  /** The arena after the search for v stopped at `node` and created a symbol in the gap there. */
  ghost predicate Creates(s0: seq<Symbol>, s: seq<Symbol>, s': seq<Symbol>, ps: seq<Place>, ps': seq<Place>,
                          c: nat, v: Byte, amount: Byte, node: int, lo: nat, hi: nat)
    requires |ps| <= |s0| == |s| && IsNode(ps, node)
  {
    && Extends(s0, s', ps, ps', c, v, amount, lo, hi)
    && s[node].under + amount < 0x1_0000 && |ps| - node < 0x1_0000
    && s' == s[node := if v < s[node].value
         then s[node].(under := s[node].under + amount, left := |ps| - node)
         else s[node].(right := |ps| - node)][|ps| := NewSymbol(v, amount)]
  }

  lemma DescentCreatesLinks(s0: seq<Symbol>, s: seq<Symbol>, s': seq<Symbol>, ps: seq<Place>, ps': seq<Place>,
                            c: nat, counts: seq<nat>, raised: seq<nat>, v: Byte, amount: Byte,
                            node: int, lo: nat, hi: nat, i: nat)
    requires Placed(s0, ps) && c < |ps| && i < |ps|
    requires |counts| == |raised| == VALUES && Descending(s0, s, ps, c, counts, raised, v, node)
    requires StopsAt(s0, ps, node, v, lo, hi)
    requires Creates(s0, s, s', ps, ps', c, v, amount, node, lo, hi)
    ensures s'[i].value == s0[i].value && LinksOk(s', ps', i)
  {
    hide Mass, Placed;
    assert LinksOk(s0, ps, i) by { LinksAt(s0, ps, i); }
    assert SameShape(s0[i], s[i]);
    if i != node {
      LinksExtended(s0, s', ps, ps', i);
    } else {
      LinksExtended(s0, s, ps, ps', i);
    }
  }

  lemma LinksAt(s: seq<Symbol>, ps: seq<Place>, i: nat)
    requires Placed(s, ps) && i < |ps|
    ensures |ps| <= |s| && LinksOk(s, ps, i)
  {
  }

  lemma DescentCreatesPlace(s0: seq<Symbol>, s: seq<Symbol>, s': seq<Symbol>, ps: seq<Place>, ps': seq<Place>,
                            c: nat, counts: seq<nat>, raised: seq<nat>, v: Byte, amount: Byte,
                            node: int, lo: nat, hi: nat)
    requires Placed(s0, ps) && c < |ps| && TreeOk(s0, ps, c, counts)
    requires |counts| == |raised| == VALUES && Descending(s0, s, ps, c, counts, raised, v, node)
    requires StopsAt(s0, ps, node, v, lo, hi)
    requires Creates(s0, s, s', ps, ps', c, v, amount, node, lo, hi)
    ensures Placed(s', ps')
  {
    hide Mass, NodeOk;
    forall i | Owns(ps, c, i) ensures s0[i].value != v && Apart(s0[i].value, ps[i], ps'[|ps|]) {
      GapIsApart(s0, ps, c, counts, v, node, i, ps'[|ps|]);
    }
    forall i | 0 <= i < |ps| ensures s'[i].value == s0[i].value && LinksOk(s', ps', i) {
      DescentCreatesLinks(s0, s, s', ps, ps', c, counts, raised, v, amount, node, lo, hi, i);
    }
    PlacedExtended(s0, s', ps, ps', c, v, amount, lo, hi);
  }

  lemma DescentCreatesNode(s0: seq<Symbol>, s: seq<Symbol>, s': seq<Symbol>, ps: seq<Place>, ps': seq<Place>,
                           c: nat, counts: seq<nat>, raised: seq<nat>, v: Byte, amount: Byte,
                           node: int, lo: nat, hi: nat, i: int)
    requires Placed(s0, ps) && c < |ps| && TreeOk(s0, ps, c, counts) && RaisedBy(counts, raised, v, amount)
    requires Descending(s0, s, ps, c, counts, raised, v, node) && 1 <= amount
    requires StopsAt(s0, ps, node, v, lo, hi)
    requires Creates(s0, s, s', ps, ps', c, v, amount, node, lo, hi)
    requires Owns(ps, c, i)
    ensures NodeOk(s'[i], ps'[i], raised)
  {
    hide Mass, Placed, Apart;
    assert NodeOk(s0[i], ps[i], counts);
    GapIsApart(s0, ps, c, counts, v, node, i, ps'[|ps|]);
    MassRaised(counts, v, amount, ps[i].lo, s0[i].value + 1);
  }

  lemma DescentCreates(s0: seq<Symbol>, s: seq<Symbol>, s': seq<Symbol>, ps: seq<Place>, ps': seq<Place>,
                       c: nat, counts: seq<nat>, raised: seq<nat>, v: Byte, amount: Byte,
                       node: int, lo: nat, hi: nat)
    requires Placed(s0, ps) && c < |ps| && TreeOk(s0, ps, c, counts) && RaisedBy(counts, raised, v, amount)
    requires Descending(s0, s, ps, c, counts, raised, v, node) && 1 <= amount
    requires StopsAt(s0, ps, node, v, lo, hi)
    requires Creates(s0, s, s', ps, ps', c, v, amount, node, lo, hi)
    ensures counts[v] == 0
    ensures Placed(s', ps') && TreeOk(s', ps', c, raised)
    ensures forall i :: 0 <= i < |s'| && !Owns(ps', c, i) ==> s'[i] == s0[i]
  {
    hide Mass, Apart;
    assert NodeOk(s0[node], ps[node], counts) && PlaceOk(s0, ps, node);
    EmptyTree(s0, ps, c, counts, node);
    assert s0[c].symbols == s'[c].symbols;
    DescentCreatesPlace(s0, s, s', ps, ps', c, counts, raised, v, amount, node, lo, hi);
    forall i | Owns(ps', c, i) ensures NodeOk(s'[i], ps'[i], raised) {
      if i == |ps| {
        FreshNode(counts, raised, v, amount, lo, hi);
      } else {
        DescentCreatesNode(s0, s, s', ps, ps', c, counts, raised, v, amount, node, lo, hi, i);
      }
    }
    assert LinksOk(s0, ps, c);
  }
}
