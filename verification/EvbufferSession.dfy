/** Runs over two chained buffers: whatever is done to them, they stay two byte sequences. */
module EvbufferSession {
  import opened Octets
  import opened ByteLists
  import opened EvbufferChains
  import opened EvbufferRemoval
  import opened EvbufferMoves
  import opened EvbufferPullup

  /** A buffer as its callers see it. */
  datatype Side = Side(content: seq<Byte>, freezeStart: bool, freezeEnd: bool)

  datatype Pair = Pair(x: Side, y: Side)

  /** A call on one buffer. */
  datatype Call =
    | Append(data: seq<Byte>)
    | PutFront(data: seq<Byte>)
    | Discard(count: nat)
    | Take(count: nat)
    | MakeContiguous(size: int)
    | SetFrozen(start: bool, frozen: bool)

  /** What a buffer may be given out of another one: all of it behind or in front, or a part behind. */
  datatype Transfer = AllBehind | AllInFront | PartBehind(count: nat)

  datatype Op = On(onX: bool, call: Call) | Between(toX: bool, transfer: Transfer)

  /** What a call leaves, and what it gives out. */
  function Called(call: Call, s: Side): (Side, seq<Byte>) {
    match call
    case Append(data) => (if s.freezeEnd then s else s.(content := s.content + data), [])
    case PutFront(data) => (if s.freezeStart then s else s.(content := data + s.content), [])
    case Discard(n) => (if s.freezeStart then s else s.(content := s.content[Min(n, |s.content|)..]), [])
    case Take(n) =>
      if s.freezeStart then (s, [])
      else (s.(content := s.content[Min(n, |s.content|)..]), s.content[..Min(n, |s.content|)])
    case MakeContiguous(_) => (s, [])
    case SetFrozen(start, frozen) => (if start then s.(freezeStart := frozen) else s.(freezeEnd := frozen), [])
  }

  /** What a transfer leaves of the receiving and of the giving buffer. */
  function Transferred(t: Transfer, s: Side, o: Side): (Side, Side) {
    if o.freezeStart || (if t.AllInFront? then s.freezeStart else s.freezeEnd) then (s, o)
    else match t
      case AllBehind => (s.(content := s.content + o.content), o.(content := []))
      case AllInFront => (s.(content := o.content + s.content), o.(content := []))
      case PartBehind(n) =>
        var k := Min(n, |o.content|);
        (s.(content := s.content + o.content[..k]), o.(content := o.content[k..]))
  }

  function Apply(op: Op, p: Pair): (Pair, seq<Byte>) {
    match op
    case On(onX, call) =>
      var (side, out) := Called(call, if onX then p.x else p.y);
      (if onX then p.(x := side) else p.(y := side), out)
    case Between(toX, t) =>
      var (s, o) := if toX then Transferred(t, p.x, p.y) else Transferred(t, p.y, p.x);
      (if toX then Pair(s, o) else Pair(o, s), [])
  }

  /** The state after a run, and all that was given out. */
  function Run(ops: seq<Op>, p: Pair): (Pair, seq<Byte>) {
    if ops == [] then (p, [])
    else
      var (before, out) := Run(ops[..|ops| - 1], p);
      var (after, more) := Apply(ops[|ops| - 1], before);
      (after, out + more)
  }

  const EMPTY: Side := Side([], false, false)

  ghost function View(buf: Evbuffer): Side
    reads buf
  {
    Side(buf.Content(), buf.freezeStart, buf.freezeEnd)
  }

  /** Two buffers that share nothing, neither with an empty chain. */
  ghost predicate Separate(x: Evbuffer, y: Evbuffer)
    reads x, x.chains, Buffers(x.chains), y, y.chains, Buffers(y.chains)
  {
    && x != y && x.Valid() && y.Valid() && Apart(x.chains, y.chains)
    && NoneEmpty(x.pieces) && NoneEmpty(y.pieces)
  }

  predicate AddsSomething(call: Call) {
    (call.Append? || call.PutFront?) ==> call.data != []
  }

  /** A call on one buffer. */
  method Perform(call: Call, s: Evbuffer) returns (out: seq<Byte>)
    requires s.Valid() && NoneEmpty(s.pieces) && AddsSomething(call)
    modifies s, s.chains, Buffers(s.chains)
    ensures s.Valid() && NoneEmpty(s.pieces)
    ensures (View(s), out) == Called(call, old(View(s)))
    ensures forall c :: c in s.chains ==> c in old(s.chains) || (fresh(c) && fresh(c.buffer))
  {
    hide Flat, Chain.Holds, Segment, Distinct, Apart, Evbuffer.Valid, NoneEmpty;
    out := [];
    ContentLength(s);
    assert s.Content() + [] == s.Content() == [] + s.Content() && s.Content()[0..] == s.Content();
    match call
    case Append(data) =>
      var r := s.Add(data);
    case PutFront(data) =>
      var r := s.Prepend(data);
    case Discard(n) =>
      var r := Drain(s, n);
      SuffixWithin(s.chains, old(s.chains));
    case Take(n) =>
      out := TakeBytes(s, n);
    case MakeContiguous(size) =>
      var r := Pullup(s, size);
    case SetFrozen(start, frozen) =>
      Freeze(s, start, frozen);
  }

  lemma SuffixWithin(a: seq<Chain>, b: seq<Chain>)
    requires Suffix(a, b)
    ensures forall c :: c in a ==> c in b
  {
  }

  /** evbuffer_remove into memory of the right size. */
  method TakeBytes(s: Evbuffer, n: nat) returns (out: seq<Byte>)
    requires s.Valid() && NoneEmpty(s.pieces)
    modifies s, s.chains
    ensures s.Valid() && NoneEmpty(s.pieces)
    ensures (View(s), out) == Called(Take(n), old(View(s)))
    ensures forall c :: c in s.chains ==> c in old(s.chains)
  {
    hide Flat, Segment, Evbuffer.Valid, NoneEmpty, Evbuffer.Content;
    ContentLength(s);
    var size := Min(n, s.totalLen);
    assert forall b :: b in Buffers(s.chains) ==> allocated(b);
    var memory := new Byte[size];
    var r := Remove(s, memory, size);
    SuffixWithin(s.chains, old(s.chains));
    out := if r > 0 then memory[..r] else [];
    SplitBytes(memory[..if r > 0 then r else 0], s.Content(), old(s.Content()));
    SplitBytes([], old(s.Content()), old(s.Content()));
    assert [] + old(s.Content()) == old(s.Content());
  }

  /** evbuffer_freeze and evbuffer_unfreeze */
  method Freeze(s: Evbuffer, start: bool, frozen: bool)
    requires s.Valid()
    modifies s`freezeStart, s`freezeEnd
    ensures s.Valid() && s.pieces == old(s.pieces) && s.chains == old(s.chains)
    ensures s.freezeStart == if start then frozen else old(s.freezeStart)
    ensures s.freezeEnd == if start then old(s.freezeEnd) else frozen
  {
    hide Segment;
    MemoryApart(s.chains, s);
    if start { s.freezeStart := frozen; } else { s.freezeEnd := frozen; }
  }

  /** A call on one buffer does nothing to another one that shares nothing with it. */
  method PerformBeside(call: Call, s: Evbuffer, o: Evbuffer) returns (out: seq<Byte>)
    requires Separate(s, o) && AddsSomething(call)
    modifies s, s.chains, Buffers(s.chains)
    ensures Separate(s, o) && o.chains == old(o.chains)
    ensures (View(s), out) == Called(call, old(View(s))) && View(o) == old(View(o))
    ensures forall c :: c in s.chains ==> c in old(s.chains) || (fresh(c) && fresh(c.buffer))
  {
    hide Flat, Chain.Holds, Segment, Distinct, Apart, Evbuffer.Valid, NoneEmpty, Called;
    ghost var cs, ds := s.chains, o.chains;
    ApartMemory(cs, ds);
    MemoryApart(ds, s);
    MemoryApart(cs, o);
    out := Perform(call, s);
    assert forall c :: c in s.chains ==> c in cs || (c !in ds && c.buffer !in Buffers(ds));
    ApartGrown(cs, ds, s.chains);
    assert forall c :: c in ds ==> unchanged(c);
    assert forall m :: m in Buffers(ds) ==> unchanged(m);
    assert unchanged(o);
    ValidFramed(o);
  }

  /** A transfer between two buffers. */
  method Move(t: Transfer, s: Evbuffer, o: Evbuffer)
    requires Separate(s, o)
    modifies s, s.chains, Buffers(s.chains), o, o.chains, Buffers(o.chains)
    ensures Separate(s, o)
    ensures (View(s), View(o)) == Transferred(t, old(View(s)), old(View(o)))
    ensures forall c :: c in s.chains || c in o.chains ==>
      c in old(s.chains) || c in old(o.chains) || (fresh(c) && fresh(c.buffer))
  {
    hide Flat, Chain.Holds, Segment, Distinct, Apart, Evbuffer.Valid;
    ContentLength(s);
    ContentLength(o);
    ghost var c := o.Content();
    assert s.Content() + [] == s.Content() == [] + s.Content() && c[..0] == [] && c[0..] == c;
    match t
    case AllBehind =>
      var r := AddBuffer(s, o);
    case AllInFront =>
      var r := PrependBuffer(s, o);
    case PartBehind(n) =>
      NoneEmptyMoves(s.chains != [], o.pieces, n);
      var r := RemoveBuffer(o, s, n);
  }

  /** One operation on a pair of buffers. */
  method Step(op: Op, x: Evbuffer, y: Evbuffer) returns (out: seq<Byte>)
    requires Separate(x, y) && (op.On? ==> AddsSomething(op.call))
    modifies x, x.chains, Buffers(x.chains), y, y.chains, Buffers(y.chains)
    ensures Separate(x, y)
    ensures (Pair(View(x), View(y)), out) == Apply(op, old(Pair(View(x), View(y))))
    ensures forall c :: c in x.chains || c in y.chains ==>
      c in old(x.chains) || c in old(y.chains) || (fresh(c) && fresh(c.buffer))
  {
    hide Flat, Chain.Holds, Segment, Distinct, Apart, Evbuffer.Valid, Evbuffer.Content, NoneEmpty, Called, Transferred;
    out := [];
    ApartFlips(x.chains, y.chains);
    match op {
      case On(onX, call) =>
        if onX { out := PerformBeside(call, x, y); } else { out := PerformBeside(call, y, x); }
      case Between(toX, t) =>
        if toX { Move(t, x, y); } else { Move(t, y, x); }
    }
    ApartFlips(x.chains, y.chains);
  }

  method NewPair() returns (x: Evbuffer, y: Evbuffer)
    ensures fresh(x) && fresh(y) && Separate(x, y) && x.chains == y.chains == [] && View(x) == View(y) == EMPTY
  {
    x := new Evbuffer();
    y := new Evbuffer();
  }

  /** Any run over two new buffers does to their chains what Run does to two byte sequences. */
  method Play(ops: seq<Op>) returns (x: Evbuffer, y: Evbuffer, out: seq<Byte>)
    requires forall op :: op in ops && op.On? ==> AddsSomething(op.call)
    ensures fresh(x) && fresh(y) && Separate(x, y)
    ensures (Pair(View(x), View(y)), out) == Run(ops, Pair(EMPTY, EMPTY))
  {
    hide Flat, Chain.Holds, Segment, Distinct, Apart, Evbuffer.Valid, Evbuffer.Content, NoneEmpty, Called, Transferred;
    x, y := NewPair();
    out := [];
    var i := 0;
    while i < |ops|
      invariant i <= |ops| && fresh(x) && fresh(y) && Separate(x, y)
      invariant forall k :: 0 <= k < |x.chains| ==> fresh(x.chains[k]) && fresh(x.chains[k].buffer)
      invariant forall k :: 0 <= k < |y.chains| ==> fresh(y.chains[k]) && fresh(y.chains[k].buffer)
      invariant (Pair(View(x), View(y)), out) == Run(ops[..i], Pair(EMPTY, EMPTY))
    {
      assert ops[..i + 1][..i] == ops[..i];
      assert ops[i] in ops;
      ghost var xs, ys := x.chains, y.chains;
      var more := Step(ops[i], x, y);
      out := out + more;
      forall k | 0 <= k < |x.chains| ensures fresh(x.chains[k]) && fresh(x.chains[k].buffer) {
        assert x.chains[k] in x.chains;
      }
      forall k | 0 <= k < |y.chains| ensures fresh(y.chains[k]) && fresh(y.chains[k].buffer) {
        assert y.chains[k] in y.chains;
      }
      i := i + 1;
    }
    assert ops[..i] == ops;
  }

  /** Operations that use the two buffers as a pipe: in at x, across to y, out of y. */
  predicate Pipes(op: Op) {
    match op
    case On(onX, call) => call.MakeContiguous? || call.SetFrozen? || (if onX then call.Append? else call.Take?)
    case Between(toX, t) => !toX && !t.AllInFront?
  }

  function Accepted(op: Op, p: Pair): seq<Byte> {
    if op.On? && op.call.Append? && op.onX && !p.x.freezeEnd then op.call.data else []
  }

  /** All the bytes a run took in. */
  function Fed(ops: seq<Op>, p: Pair): seq<Byte> {
    if ops == [] then []
    else Fed(ops[..|ops| - 1], p) + Accepted(ops[|ops| - 1], Run(ops[..|ops| - 1], p).0)
  }

  function InOrder(p: Pair): seq<Byte> {
    p.y.content + p.x.content
  }

  lemma CutInThree(y: seq<Byte>, x: seq<Byte>, n: nat)
    requires n <= |y|
    ensures y[..n] + (y[n..] + x) == y + x
  {
  }

  lemma CutBehind(y: seq<Byte>, x: seq<Byte>, n: nat)
    requires n <= |x|
    ensures y + x[..n] + x[n..] == y + x
  {
  }

  lemma StepKeepsOrder(op: Op, p: Pair)
    requires Pipes(op)
    ensures var (q, out) := Apply(op, p); out + InOrder(q) == InOrder(p) + Accepted(op, p)
  {
    var x, y := p.x.content, p.y.content;
    if op.On? && op.call.Append? {
      Associative(y, x, op.call.data);
    } else if op.On? && op.call.Take? {
      CutInThree(y, x, Min(op.call.count, |y|));
    } else if op.Between? && op.transfer.PartBehind? {
      CutBehind(y, x, Min(op.transfer.count, |x|));
    }
    assert [] + (y + x) == y + x == y + x + [];
  }

  /** What went out of a pipe, what is in it and what went in are the same bytes in the same order,
      whatever the run and however the transfers cut them up. */
  lemma {:induction false} PipeKeepsOrder(ops: seq<Op>, p: Pair)
    requires forall op :: op in ops ==> Pipes(op)
    ensures var (q, out) := Run(ops, p); out + InOrder(q) == InOrder(p) + Fed(ops, p)
  {
    if ops == [] {
      assert [] + InOrder(p) == InOrder(p) == InOrder(p) + [];
    } else {
      var front, op := ops[..|ops| - 1], ops[|ops| - 1];
      PipeKeepsOrder(front, p);
      var (before, out) := Run(front, p);
      var (after, more) := Apply(op, before);
      StepKeepsOrder(op, before);
      Associative(out, more, InOrder(after));
      Associative(out, InOrder(before), Accepted(op, before));
      Associative(InOrder(p), Fed(front, p), Accepted(op, before));
    }
  }
}
