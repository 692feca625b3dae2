/** Frequency tables of the adaptive model in enet/compress.c, as plain counts per byte value,
    without the binary indexed trees the C code keeps them in. */
module Frequencies {
  import opened Octets
  import opened RangeCoder

  const VALUES: nat := 256

  /** The tuning constants of a context: the root gives every byte a minimum count of one. */
  datatype Params = Params(minimum: nat, delta: nat)

  const ROOT := Params(1, 3)
  const SUBCONTEXT := Params(0, 2)
  const ESCAPE_DELTA: nat := 5
  const TOTAL_LIMIT: nat := 0x1_0000 - 0x100

  datatype Table = Table(counts: seq<nat>, escapes: nat)

  function NoCounts(): (counts: seq<nat>)
    ensures |counts| == VALUES
  {
    seq(VALUES, _ => 0)
  }

  /** The sum of the counts of the values in [lo, hi). */
  function Mass(counts: seq<nat>, lo: nat, hi: nat): nat
    requires lo <= hi <= |counts|
    decreases hi
  {
    if lo == hi then 0 else Mass(counts, lo, hi - 1) + counts[hi - 1]
  }

  lemma {:induction false} MassSplit(counts: seq<nat>, lo: nat, mid: nat, hi: nat)
    requires lo <= mid <= hi <= |counts|
    ensures Mass(counts, lo, hi) == Mass(counts, lo, mid) + Mass(counts, mid, hi)
    decreases hi
  {
    if mid < hi {
      MassSplit(counts, lo, mid, hi - 1);
    }
  }

  lemma {:induction false} MassZero(counts: seq<nat>, lo: nat, hi: nat)
    requires lo <= hi <= |counts|
    requires forall v :: lo <= v < hi ==> counts[v] == 0
    ensures Mass(counts, lo, hi) == 0
    decreases hi
  {
    if lo < hi {
      MassZero(counts, lo, hi - 1);
    }
  }

  /** Raising one count raises exactly the masses whose range holds that value. */
  lemma {:induction false} MassRaised(counts: seq<nat>, v: nat, amount: nat, lo: nat, hi: nat)
    requires lo <= hi <= |counts| && v < |counts|
    ensures Mass(counts[v := counts[v] + amount], lo, hi)
         == Mass(counts, lo, hi) + if lo <= v < hi then amount else 0
    decreases hi
  {
    if lo < hi {
      MassRaised(counts, v, amount, lo, hi - 1);
    }
  }

  function Halve(n: nat): nat {
    n - n / 2
  }

  function Halved(counts: seq<nat>): (halved: seq<nat>)
    ensures |halved| == |counts|
    ensures forall v :: 0 <= v < |counts| ==> halved[v] == Halve(counts[v])
  {
    seq(|counts|, v requires 0 <= v < |counts| => Halve(counts[v]))
  }

  lemma {:induction false} MassHalved(counts: seq<nat>, lo: nat, hi: nat)
    requires lo <= hi <= |counts|
    ensures 2 * Mass(Halved(counts), lo, hi) <= Mass(counts, lo, hi) + (hi - lo)
    decreases hi
  {
    if lo < hi {
      MassHalved(counts, lo, hi - 1);
    }
  }

  function Total(t: Table, p: Params): nat
    requires |t.counts| == VALUES
  {
    t.escapes + Mass(t.counts, 0, VALUES) + VALUES * p.minimum
  }

  /** Where the values before v end, escapes not counted. */
  function Before(t: Table, p: Params, v: nat): nat
    requires |t.counts| == VALUES && v <= VALUES
  {
    v * p.minimum + Mass(t.counts, 0, v)
  }

  /** The slot that stands for value v. */
  function SlotOf(t: Table, p: Params, v: Byte): Slot
    requires |t.counts| == VALUES
  {
    Slot(t.escapes + Before(t, p, v), t.counts[v] + p.minimum, Total(t, p))
  }

  /** The slot that stands for "not in this context". */
  function EscapeSlot(t: Table, p: Params): Slot
    requires |t.counts| == VALUES
  {
    Slot(0, t.escapes, Total(t, p))
  }

  predicate KnownParams(p: Params) {
    p == ROOT || p == SUBCONTEXT
  }

  /** What every table keeps: counts fit a byte with room for one more update, the total stays
      below the rescaling limit, and a table with any symbol can also escape. */
  predicate TableOk(t: Table, p: Params) {
    && |t.counts| == VALUES
    && (forall v :: 0 <= v < VALUES ==> t.counts[v] <= 0xFF - p.delta)
    && Total(t, p) <= TOTAL_LIMIT
    && (p == ROOT ==> 1 <= t.escapes)
    && (t.escapes == 0 ==> forall v :: 0 <= v < VALUES ==> t.counts[v] == 0)
  }

  function Rescaled(t: Table): Table {
    Table(Halved(t.counts), Halve(t.escapes))
  }

  function Raised(t: Table, p: Params, v: Byte): Table
    requires |t.counts| == VALUES
  {
    var escapes := if p == SUBCONTEXT && t.counts[v] == 0 then t.escapes + ESCAPE_DELTA else t.escapes;
    Table(t.counts[v := t.counts[v] + p.delta], escapes)
  }

  /** The table after one more occurrence of v. */
  function Learn(t: Table, p: Params, v: Byte): Table
    requires |t.counts| == VALUES
  {
    var raised := Raised(t, p, v);
    if t.counts[v] + p.minimum > 0xFF - 2 * p.delta + p.minimum || Total(raised, p) > TOTAL_LIMIT then
      Rescaled(raised)
    else
      raised
  }

  lemma TotalRaised(t: Table, p: Params, v: Byte)
    requires |t.counts| == VALUES
    ensures Total(Raised(t, p, v), p) == Total(t, p) + p.delta
      + if p == SUBCONTEXT && t.counts[v] == 0 then ESCAPE_DELTA else 0
  {
    hide Mass;
    MassRaised(t.counts, v, p.delta, 0, VALUES);
  }

  /** Counts never leave a byte, totals never leave the coder's 16 bits, across rescaling. */
  lemma LearnKeepsTableOk(t: Table, p: Params, v: Byte)
    requires TableOk(t, p) && KnownParams(p)
    ensures TableOk(Learn(t, p, v), p)
    ensures Learn(t, p, v).counts[v] > 0
    ensures forall u :: 0 <= u < VALUES && u != v ==>
      (Learn(t, p, v).counts[u] == 0 <==> t.counts[u] == 0)
  {
    hide Mass;
    TotalRaised(t, p, v);
    MassHalved(Raised(t, p, v).counts, 0, VALUES);
  }

  /** What rescaling may rely on: a table at most one update over its bounds. */
  predicate RaisedBounds(t: Table, p: Params) {
    && KnownParams(p)
    && |t.counts| == VALUES
    && (forall u :: 0 <= u < VALUES ==> t.counts[u] <= 0xFF)
    && Total(t, p) < 0x1_0000
  }

  /** The counts the C code holds in bytes and 16-bit words between two updates. */
  lemma RaisedFits(t: Table, p: Params, v: Byte)
    requires TableOk(t, p) && KnownParams(p)
    ensures RaisedBounds(Raised(t, p, v), p)
  {
    TotalRaised(t, p, v);
  }

  lemma RescaledFits(t: Table, p: Params)
    requires RaisedBounds(t, p)
    ensures Total(Rescaled(t), p) < 0x1_0000
    ensures Mass(Halved(t.counts), 0, VALUES) + Halve(t.escapes) + VALUES * p.minimum == Total(Rescaled(t), p)
  {
    MassHalved(t.counts, 0, VALUES);
  }

  lemma SlotFits(t: Table, p: Params, v: Byte)
    requires TableOk(t, p) && KnownParams(p)
    requires 0 < t.counts[v] + p.minimum
    ensures Fits(SlotOf(t, p, v))
    ensures t.counts[v] > 0 ==> 0 < t.escapes < Total(t, p)
  {
    MassSplit(t.counts, 0, v, VALUES);
    MassSplit(t.counts, v, v + 1, VALUES);
    assert Mass(t.counts, v, v + 1) == t.counts[v];
    if p == ROOT {
      assert SlotOf(t, p, v).under == t.escapes + v + Mass(t.counts, 0, v);
    } else {
      assert SlotOf(t, p, v).under == t.escapes + Mass(t.counts, 0, v);
    }
  }

  lemma TotalBounds(t: Table, p: Params)
    requires TableOk(t, p) && KnownParams(p)
    ensures |t.counts| == VALUES && t.escapes <= Total(t, p) < BOTTOM
    ensures p == ROOT ==> 0 < t.escapes < Total(t, p)
  {
  }

  lemma EscapeFits(t: Table, p: Params)
    requires TableOk(t, p) && 0 < t.escapes
    ensures Fits(EscapeSlot(t, p))
  {
  }

  /** The value whose slot a code (escapes already taken off) falls in, by linear search. */
  function Find(t: Table, p: Params, code: nat, from: nat): (v: Byte)
    requires |t.counts| == VALUES && from < VALUES
    requires Before(t, p, from) <= code < Before(t, p, VALUES)
    ensures from <= v && Before(t, p, v) <= code < Before(t, p, v + 1)
    decreases VALUES - from
  {
    if code < Before(t, p, from + 1) then from else Find(t, p, code, from + 1)
  }

  lemma {:induction false} BeforeMonotone(t: Table, p: Params, u: nat, v: nat)
    requires |t.counts| == VALUES && u <= v <= VALUES && KnownParams(p)
    ensures Before(t, p, u) <= Before(t, p, v)
  {
    MassSplit(t.counts, 0, u, v);
  }

  lemma BeforeNext(t: Table, p: Params, v: nat)
    requires |t.counts| == VALUES && v < VALUES && KnownParams(p)
    ensures Before(t, p, v + 1) == Before(t, p, v) + t.counts[v] + p.minimum
    ensures Before(t, p, 0) == 0
    ensures Total(t, p) == t.escapes + Before(t, p, VALUES)
  {
  }

  /** Slots do not overlap: a code inside the slot of v finds v and no other value. */
  lemma FindUnique(t: Table, p: Params, code: nat, v: Byte)
    requires |t.counts| == VALUES && KnownParams(p)
    requires Before(t, p, v) <= code < Before(t, p, v) + t.counts[v] + p.minimum
    ensures Before(t, p, 0) == 0 <= code < Before(t, p, VALUES)
    ensures Find(t, p, code, 0) == v
  {
    BeforeNext(t, p, v);
    BeforeMonotone(t, p, v + 1, VALUES);
    var found := Find(t, p, code, 0);
    if found < v {
      BeforeMonotone(t, p, found + 1, v);
    } else if v < found {
      BeforeMonotone(t, p, v + 1, found);
    }
  }

  /** The value whose slot a code read from a decoder falls in. */
  function Lookup(t: Table, p: Params, code: nat): (v: Byte)
    requires TableOk(t, p) && KnownParams(p)
    requires t.escapes <= code < Total(t, p)
    ensures Fits(SlotOf(t, p, v))
    ensures SlotOf(t, p, v).under <= code < SlotOf(t, p, v).under + SlotOf(t, p, v).count
  {
    BeforeNext(t, p, 0);
    hide Before, Total, Mass, TableOk, Fits;
    var v := Find(t, p, code - t.escapes, 0);
    BeforeNext(t, p, v);
    SlotFits(t, p, v);
    v
  }

  lemma LookupUnique(t: Table, p: Params, code: nat, v: Byte)
    requires TableOk(t, p) && KnownParams(p)
    requires SlotOf(t, p, v).under <= code < SlotOf(t, p, v).under + SlotOf(t, p, v).count
    ensures t.escapes <= code < Total(t, p) && Lookup(t, p, code) == v
  {
    hide Mass, Before, Find;
    BeforeNext(t, p, v);
    FindUnique(t, p, code - t.escapes, v);
  }

  /** v is the value whose slot holds code, escapes already taken off. */
  ghost predicate SlotHolds(t: Table, p: Params, code: nat, v: Byte)
    requires |t.counts| == VALUES
  {
    Before(t, p, v) <= code < Before(t, p, v + 1)
  }

  /** Comparing a code with the slot of u is comparing v with u. */
  lemma SlotOrder(t: Table, p: Params, code: nat, v: Byte, u: Byte)
    requires |t.counts| == VALUES && KnownParams(p) && SlotHolds(t, p, code, v)
    ensures code >= Before(t, p, u + 1) <==> u < v
    ensures code < Before(t, p, u) <==> v < u
  {
    if u < v {
      BeforeMonotone(t, p, u + 1, v);
      BeforeMonotone(t, p, u, u + 1);
    } else if v < u {
      BeforeMonotone(t, p, v + 1, u);
      BeforeMonotone(t, p, u, u + 1);
    }
  }

  lemma LookupHolds(t: Table, p: Params, code: nat)
    requires TableOk(t, p) && KnownParams(p) && t.escapes + code < Total(t, p)
    ensures SlotHolds(t, p, code, Lookup(t, p, t.escapes + code))
  {
    BeforeNext(t, p, Lookup(t, p, t.escapes + code));
  }
}
