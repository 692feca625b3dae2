/** The order-2 context model of enet/compress.c as a map from contexts to frequency tables, the
    stream its encoder writes and the reading of such a stream. A context is the string of the
    bytes it follows, oldest first; [] is the root. */
module PpmModel {
  import opened Octets
  import opened RangeCoder
  import opened Frequencies

  const ORDER: nat := 2
  const ARENA_SIZE: nat := 4096

  type Context = seq<Byte>
  type Tables = map<Context, Table>

  /** `history` is the longest context to be tried next, `used` the number of arena slots taken. */
  datatype Model = Model(tables: Tables, history: Context, used: nat)

  const INITIAL := Model(map[], [], 1)

  function ParamsOf(c: Context): (p: Params)
    ensures KnownParams(p)
  {
    if c == [] then ROOT else SUBCONTEXT
  }

  /** A context seen for the first time has no symbols; the root starts with one escape. */
  function TableAt(ts: Tables, c: Context): Table {
    if c in ts then ts[c] else Table(NoCounts(), if c == [] then 1 else 0)
  }

  predicate TablesOk(ts: Tables) {
    forall c :: c in ts ==> TableOk(ts[c], ParamsOf(c))
  }

  predicate ModelOk(m: Model) {
    TablesOk(m.tables) && |m.history| <= ORDER && m.used < ARENA_SIZE - ORDER
  }

  lemma TableAtOk(ts: Tables, c: Context)
    requires TablesOk(ts)
    ensures TableOk(TableAt(ts, c), ParamsOf(c))
  {
    MassZero(NoCounts(), 0, VALUES);
  }

  // What a context makes of the bytes it has learned

  /** The table of context c after it has learned some bytes, one after the other. */
  function Learned(c: Context, vs: seq<Byte>): (t: Table)
    ensures TableOk(t, ParamsOf(c))
  {
    if vs == [] then
      TableAtOk(map[], c);
      TableAt(map[], c)
    else
      LearnKeepsTableOk(Learned(c, vs[..|vs| - 1]), ParamsOf(c), vs[|vs| - 1]);
      Learn(Learned(c, vs[..|vs| - 1]), ParamsOf(c), vs[|vs| - 1])
  }

  function Occurrences(vs: seq<Byte>, v: Byte): nat {
    if vs == [] then 0 else Occurrences(vs[..|vs| - 1], v) + if vs[|vs| - 1] == v then 1 else 0
  }

  /** How many different bytes there are. */
  function Different(vs: seq<Byte>): nat {
    if vs == [] then 0
    else
      var rest, v := vs[..|vs| - 1], vs[|vs| - 1];
      Different(rest) + if Occurrences(rest, v) == 0 then 1 else 0
  }

  /** No count and no total has made a rescale necessary. */
  predicate Unscaled(c: Context, vs: seq<Byte>) {
    && (forall v: Byte :: Occurrences(vs, v) <= if c == [] then 84 else 126)
    && (if c == [] then 257 + 3 * |vs| else 2 * |vs| + 5 * Different(vs)) <= TOTAL_LIMIT
  }

  /** The units of every byte, of the escape and of all together, until the first rescale. */
  lemma {:induction false} UnitsOf(c: Context, vs: seq<Byte>, v: Byte)
    requires Unscaled(c, vs)
    ensures var t, n := Learned(c, vs), Occurrences(vs, v);
      && SlotOf(t, ParamsOf(c), v).count == t.counts[v] + (if c == [] then 1 else 0)
      && t.counts[v] == (if c == [] then 3 * n else 2 * n)
      && t.escapes == (if c == [] then 1 else 5 * Different(vs))
      && Total(t, ParamsOf(c)) == if c == [] then 257 + 3 * |vs| else 2 * |vs| + 5 * Different(vs)
  {
    hide Mass;
    if vs == [] {
      MassZero(NoCounts(), 0, VALUES);
    } else {
      var rest, last := vs[..|vs| - 1], vs[|vs| - 1];
      forall u: Byte ensures Occurrences(rest, u) <= Occurrences(vs, u) {}
      UnitsOf(c, rest, v);
      UnitsOf(c, rest, last);
      TotalRaised(Learned(c, rest), ParamsOf(c), last);
    }
  }

  function LearnAt(ts: Tables, c: Context, v: Byte): (ts': Tables)
    requires TablesOk(ts)
    ensures TablesOk(ts')
  {
    TableAtOk(ts, c);
    LearnKeepsTableOk(TableAt(ts, c), ParamsOf(c), v);
    ts[c := Learn(TableAt(ts, c), ParamsOf(c), v)]
  }

  /** Learns v in the n longest of the contexts c, c[1..], c[2..], ... */
  function LearnChain(ts: Tables, c: Context, n: nat, v: Byte): (ts': Tables)
    requires TablesOk(ts) && n <= |c| + 1
    ensures TablesOk(ts')
  {
    if n == 0 then ts else LearnAt(LearnChain(ts, c, n - 1, v), c[n - 1..], v)
  }

  lemma {:induction false} LearnChainAt(ts: Tables, c: Context, n: nat, v: Byte, d: Context)
    requires TablesOk(ts) && n <= |c| + 1
    ensures (forall i :: 0 <= i < n ==> d != c[i..]) ==> TableAt(LearnChain(ts, c, n, v), d) == TableAt(ts, d)
    ensures forall i :: 0 <= i < n && d == c[i..] ==>
      TableAt(LearnChain(ts, c, n, v), d) == Learn(TableAt(ts, d), ParamsOf(d), v)
  {
    hide Learn, TableOk;
    if n > 0 {
      LearnChainAt(ts, c, n - 1, v, d);
      if d == c[n - 1..] {
        forall i | 0 <= i < n - 1 ensures d != c[i..] { assert |c[i..]| != |d|; }
      }
    }
  }

  /** How many of those n contexts had not seen v: each of them takes one more arena slot. */
  function Created(ts: Tables, c: Context, n: nat, v: Byte): nat
    requires TablesOk(ts) && n <= |c| + 1
  {
    if n == 0 then 0
    else Created(ts, c, n - 1, v) + if Seen(ts, c[n - 1..], v) then 0 else 1
  }

  predicate Seen(ts: Tables, c: Context, v: Byte)
    requires TablesOk(ts)
  {
    TableAtOk(ts, c);
    TableAt(ts, c).counts[v] > 0
  }

  /** The first context from c[i..] on whose table holds v; the root holds every byte. */
  function Holder(ts: Tables, c: Context, i: nat, v: Byte): (depth: nat)
    requires TablesOk(ts) && i <= |c|
    ensures i <= depth <= |c|
    ensures depth < |c| ==> Seen(ts, c[depth..], v)
    ensures forall j :: i <= j < depth ==> !Seen(ts, c[j..], v)
    decreases |c| - i
  {
    if i == |c| || Seen(ts, c[i..], v) then i else Holder(ts, c, i + 1, v)
  }

  /** The last ORDER bytes. */
  function Recent(bytes: Context): Context {
    if |bytes| > ORDER then bytes[|bytes| - ORDER..] else bytes
  }

  /** The model after v was coded at the given depth: the contexts down to that depth learn it, and
      a full arena starts over. */
  function Advance(m: Model, depth: nat, v: Byte): (m': Model)
    requires ModelOk(m) && depth <= |m.history|
    ensures ModelOk(m')
  {
    var ts := LearnChain(m.tables, m.history, depth + 1, v);
    var used := m.used + Created(m.tables, m.history, depth + 1, v);
    if used >= ARENA_SIZE - ORDER then INITIAL
    else Model(ts, Recent(m.history + [v]), used)
  }

  lemma {:induction false} CreatedBound(ts: Tables, c: Context, n: nat, v: Byte)
    requires TablesOk(ts) && n <= |c| + 1
    ensures Created(ts, c, n, v) <= n
  {
    if n > 0 {
      CreatedBound(ts, c, n - 1, v);
    }
  }

  predicate CanEscape(t: Table, p: Params)
    requires |t.counts| == VALUES
  {
    0 < t.escapes < Total(t, p)
  }

  /** The slots that code v, starting from context c[i..]. */
  function SlotsFrom(ts: Tables, c: Context, i: nat, v: Byte): (slots: seq<Slot>)
    requires TablesOk(ts) && i <= |c|
    ensures AllFit(slots)
    decreases |c| - i
  {
    TableAtOk(ts, c[i..]);
    var t, p := TableAt(ts, c[i..]), ParamsOf(c[i..]);
    if i == |c| || Seen(ts, c[i..], v) then
      SlotFits(t, p, v);
      [SlotOf(t, p, v)]
    else if CanEscape(t, p) then
      EscapeFits(t, p);
      [EscapeSlot(t, p)] + SlotsFrom(ts, c, i + 1, v)
    else
      SlotsFrom(ts, c, i + 1, v)
  }

  /** The bytes the encoder writes from here on for the remaining input. */
  function Encoded(m: Model, coder: Coder, input: seq<Byte>): seq<Byte>
    requires ModelOk(m) && Normal(coder)
    decreases |input|
  {
    if input == [] then
      Flush(coder.low)
    else
      var v := input[0];
      var n := EncodeAll(coder, SlotsFrom(m.tables, m.history, 0, v));
      n.bytes + Encoded(Advance(m, Holder(m.tables, m.history, 0, v), v), n.coder, input[1..])
  }

  function Compressed(input: seq<Byte>): seq<Byte> {
    Encoded(INITIAL, START, input)
  }

  /** One attempt to read a byte: the byte and the depth of the context that gave it, the end of
      the stream (an escape read in the root), or a code above the total of the context asked,
      which a subcontext rejects and the root does not check. */
  datatype Reading =
    | Found(value: Byte, depth: nat, coder: Coder, pos: nat)
    | End
    | Rejected
    | OutOfRange

  function ReadFrom(ts: Tables, c: Context, i: nat, stream: seq<Byte>, coder: Coder, pos: nat): (r: Reading)
    requires TablesOk(ts) && i <= |c| && Normal(coder)
    ensures r.Found? ==> i <= r.depth <= |c| && Normal(r.coder) && pos <= r.pos
    decreases |c| - i
  {
    hide Window, Total, SlotOf, Encode, Normal, TableOk, Lookup;
    TableAtOk(ts, c[i..]);
    var t, p := TableAt(ts, c[i..]), ParamsOf(c[i..]);
    TotalBounds(t, p);
    if i < |c| && !CanEscape(t, p) then
      ReadFrom(ts, c, i + 1, stream, coder, pos)
    else
      var code := Read(coder, Window(stream, pos), Total(t, p));
      if Total(t, p) <= code then
        if i < |c| then Rejected else OutOfRange
      else if code < t.escapes then
        EscapeFits(t, p);
        var n := Encode(coder, EscapeSlot(t, p));
        if i == |c| then End else ReadFrom(ts, c, i + 1, stream, n.coder, pos + |n.bytes|)
      else
        var v := Lookup(t, p, code);
        var n := Encode(coder, SlotOf(t, p, v));
        Found(v, i, n.coder, pos + |n.bytes|)
  }

  /** What reading a stream comes to: its bytes; a refusal because they exceed the limit or a
      subcontext rejects a code; or nothing stated because the root was asked for a code above
      its total, which the C code computes with unchecked. */
  datatype Outcome = Bytes(bytes: seq<Byte>) | Refused | Unspecified

  function Decoded(m: Model, coder: Coder, stream: seq<Byte>, pos: nat, limit: nat): Outcome
    requires ModelOk(m) && Normal(coder)
    decreases limit
  {
    match ReadFrom(m.tables, m.history, 0, stream, coder, pos)
    case End => Bytes([])
    case Rejected => Refused
    case OutOfRange => Unspecified
    case Found(v, depth, next, pos') =>
      if limit == 0 then
        Refused
      else
        match Decoded(Advance(m, depth, v), next, stream, pos', limit - 1)
        case Bytes(rest) => Bytes([v] + rest)
        case Refused => Refused
        case Unspecified => Unspecified
  }

  function Decompressed(stream: seq<Byte>, limit: nat): Outcome {
    if stream == [] then Bytes([]) else Decoded(INITIAL, START, stream, 0, limit)
  }
}
