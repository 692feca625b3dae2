/** Runs of a reliable channel: an honest sender, a network that loses, repeats and reorders
    commands, and the receiver of ReliableReceiver. */
module ReliableRuns {
  import opened Octets
  import opened Division
  import opened SequenceNumbers
  import opened ReliableReceiver
  import opened PacketStream

  /** The true index up to which everything has been dispatched. */
  function Done(ps: seq<Packet>, n: nat): nat
    requires AllSendable(ps) && n <= |ps|
  {
    Start(ps, n) - 1
  }

  /** How far behind a number may be that is not taken for a new one. */
  function Reach(base: nat): nat {
    (WINDOWS - FREE_WINDOWS + 1) * WINDOW_SIZE + base % WINDOW_SIZE
  }

  /** The environment's promise: commands are no older than that, and no further ahead than half the numbers. */
  predicate Timely(ps: seq<Packet>, n: nat, i: nat, k: nat)
    requires AllSendable(ps) && n <= |ps| && i < |ps|
  {
    Done(ps, n) <= Start(ps, i) + Reach(Done(ps, n)) && Start(ps, i) + k <= Done(ps, n) + SEQUENCE_SPACE / 2
  }

  /** What the receiver sees of true indices: how far ahead the one is of the other, around the numbers. */
  lemma WindowsOf(base: nat, index: nat)
    ensures var e, s := base % SEQUENCE_SPACE, index % SEQUENCE_SPACE; var ahead := (index - base) % SEQUENCE_SPACE;
      && WindowsAhead(e, s) == (base % WINDOW_SIZE + ahead) / WINDOW_SIZE
      && Distance(e, s) == ahead
  {
    AheadOf(base, index);
    var e, s := base % SEQUENCE_SPACE, index % SEQUENCE_SPACE;
    ModUnique(base, base / SEQUENCE_SPACE * WINDOWS + e / WINDOW_SIZE, e % WINDOW_SIZE, WINDOW_SIZE);
    ModUnique(e % WINDOW_SIZE + (index - base) % SEQUENCE_SPACE, WindowsAhead(e, s), s % WINDOW_SIZE, WINDOW_SIZE);
    ModUnique(s - e, if s < e then -1 else 0, s - e + if s < e then SEQUENCE_SPACE else 0, SEQUENCE_SPACE);
  }

  lemma AheadOf(base: nat, index: nat)
    ensures var e, s := base % SEQUENCE_SPACE, index % SEQUENCE_SPACE;
      (index - base) % SEQUENCE_SPACE == s - e + if s < e then SEQUENCE_SPACE else 0
  {
    var e, s := base % SEQUENCE_SPACE, index % SEQUENCE_SPACE;
    var a, b := base / SEQUENCE_SPACE, index / SEQUENCE_SPACE;
    var turn := if s < e then 1 else 0;
    ModUnique(index - base, b - a - turn, s - e + turn * SEQUENCE_SPACE, SEQUENCE_SPACE);
  }

  lemma Nearby(base: nat, index: nat)
    requires base - SEQUENCE_SPACE < index < base + SEQUENCE_SPACE
    ensures (index - base) % SEQUENCE_SPACE == if index >= base then index - base else index + SEQUENCE_SPACE - base
  {
    var turn := if index < base then 1 else 0;
    ModUnique(index - base, -turn, index - base + turn * SEQUENCE_SPACE, SEQUENCE_SPACE);
  }

  /** A number not too old is outside the window, and anything within half the space ahead is not taken for old. */
  lemma WindowVerdict(base: nat, index: nat)
    requires base <= index + Reach(base) && index <= base + SEQUENCE_SPACE / 2
    ensures var e, s := base % SEQUENCE_SPACE, index % SEQUENCE_SPACE;
      && (index < base ==> !InWindow(e, s))
      && (InWindow(e, s) ==> index - base < (FREE_WINDOWS - 1) * WINDOW_SIZE)
      && (base < index && !InWindow(e, s) ==> FREE_WINDOWS - 1 <= WindowsAhead(e, s) <= FREE_WINDOWS)
      && (e == s <==> base == index)
  {
    WindowsOf(base, index);
    Nearby(base, index);
  }

  /** Windows further ahead are further ahead. */
  lemma WindowsMonotone(base: nat, start: nat, index: nat)
    requires base < start <= index <= base + SEQUENCE_SPACE / 2
    ensures var e := base % SEQUENCE_SPACE;
      WindowsAhead(e, start % SEQUENCE_SPACE) <= WindowsAhead(e, index % SEQUENCE_SPACE)
  {
    WindowsOf(base, start);
    Nearby(base, start);
    WindowsOf(base, index);
    Nearby(base, index);
  }

  /** A queue entry holds what has arrived of packet i. */
  ghost predicate Represents(e: Incoming, ps: seq<Packet>, i: nat)
    requires AllSendable(ps) && i < |ps|
  {
    && e.sequence == Start(ps, i) % SEQUENCE_SPACE
    && if IsFragmented(ps[i]) then
         e.isFragment && e.fragmentCount == Numbers(ps[i]) && PiecesIn(ps[i], e.fragments, e.data)
       else
         !e.isFragment && e.fragmentCount == 0 && e.data == ps[i].data
  }

  /** The queue holds the packets numbered by q, in sending order, all still to be dispatched and
      none further ahead than half the sequence space. */
  ghost predicate QueueOf(r: Receiver, ps: seq<Packet>, q: seq<nat>)
    requires AllSendable(ps) && |r.dispatched| <= |ps|
  {
    && |q| == |r.queue|
    && (forall j :: 0 <= j < |q| ==> |r.dispatched| <= q[j] < |ps| && Represents(r.queue[j], ps, q[j]))
    && (forall j, l :: 0 <= j < l < |q| ==> q[j] < q[l])
    && (forall j :: 0 <= j < |q| ==> Start(ps, q[j]) < Done(ps, |r.dispatched|) + SEQUENCE_SPACE / 2)
  }

  /** The dispatched packets are exactly the first ones sent, intact and in order. */
  ghost predicate InOrder(r: Receiver, ps: seq<Packet>)
    requires AllSendable(ps)
  {
    && |r.dispatched| <= |ps|
    && (forall j :: 0 <= j < |r.dispatched| ==> r.dispatched[j].data == ps[j].data)
    && r.expected == Done(ps, |r.dispatched|) % SEQUENCE_SPACE
  }

  /** What every timely step keeps. */
  ghost predicate Inv(r: Receiver, ps: seq<Packet>, q: seq<nat>) {
    && AllSendable(ps) && !r.leaving && Valid(r)
    && InOrder(r, ps) && QueueOf(r, ps, q)
  }

  /** The same without the queue being drained, as between an insertion and the dispatch. */
  ghost predicate Undrained(r: Receiver, ps: seq<Packet>, q: seq<nat>) {
    && AllSendable(ps) && !r.leaving
    && (forall j :: 0 <= j < |r.queue| ==> EntryOk(r.queue[j]))
    && InOrder(r, ps) && QueueOf(r, ps, q)
  }

  lemma DistanceOf(ps: seq<Packet>, n: nat, i: nat)
    requires AllSendable(ps) && n <= i < |ps| && Start(ps, i) <= Done(ps, n) + SEQUENCE_SPACE / 2
    ensures Distance(Done(ps, n) % SEQUENCE_SPACE, Start(ps, i) % SEQUENCE_SPACE) == Start(ps, i) - Done(ps, n)
    ensures Done(ps, n) < Start(ps, i)
  {
    if n < i { StartMonotone(ps, n, i); }
    WindowsOf(Done(ps, n), Start(ps, i));
    Nearby(Done(ps, n), Start(ps, i));
  }

  /** The scan finds packet i where it is, or the gap where it belongs. */
  lemma {:induction false} ScanFinds(r: Receiver, ps: seq<Packet>, q: seq<nat>, i: nat, k: nat)
    requires Undrained(r, ps, q) && k <= |q|
    requires |r.dispatched| <= i < |ps| && Start(ps, i) <= Done(ps, |r.dispatched|) + SEQUENCE_SPACE / 2
    ensures match Scan(r.queue, r.expected, Start(ps, i) % SEQUENCE_SPACE, k)
      case Duplicate(j) => j < k && q[j] == i
      case At(p) => p <= k && (forall j :: 0 <= j < p ==> q[j] < i) && (forall j :: p <= j < k ==> i < q[j])
  {
    if k > 0 {
      var n, s := |r.dispatched|, Start(ps, i) % SEQUENCE_SPACE;
      var queued := r.queue[k - 1].sequence;
      assert Represents(r.queue[k - 1], ps, q[k - 1]);
      DistanceOf(ps, n, i);
      DistanceOf(ps, n, q[k - 1]);
      LaterIsFarther(r.expected, queued, s);
      if q[k - 1] < i { StartMonotone(ps, q[k - 1], i); }
      if i < q[k - 1] { StartMonotone(ps, i, q[k - 1]); }
      if Later(r.expected, queued, s) {
        ScanFinds(r, ps, q, i, k - 1);
      }
    }
  }

  /** A ready head is the next packet, complete. */
  lemma ReadyIsNext(r: Receiver, ps: seq<Packet>, q: seq<nat>)
    requires Undrained(r, ps, q) && r.queue != [] && Ready(r.queue[0], r.expected)
    ensures |r.dispatched| < |ps| && q[0] == |r.dispatched|
    ensures r.queue[0].data == ps[q[0]].data
    ensures Reached(r.queue[0]) == Done(ps, |r.dispatched| + 1) % SEQUENCE_SPACE
  {
    var n, e := |r.dispatched|, r.queue[0];
    assert Represents(e, ps, q[0]) && EntryOk(e);
    DistanceOf(ps, n, q[0]);
    NextDistance(r.expected);
    if n < q[0] { StartMonotone(ps, n, q[0]); }
    CompleteEntry(e, ps, n);
  }

  lemma CompleteEntry(e: Incoming, ps: seq<Packet>, n: nat)
    requires AllSendable(ps) && n < |ps| && Represents(e, ps, n) && EntryOk(e) && e.fragmentsRemaining == 0
    ensures e.data == ps[n].data
    ensures Reached(e) == Done(ps, n + 1) % SEQUENCE_SPACE
  {
    hide Numbers, Clear;
    NoneClear(e.fragments);
    NextStart(ps, n);
    if IsFragmented(ps[n]) {
      AllPiecesIn(ps[n], e.fragments, e.data);
      AddThenWrap(Start(ps, n), Numbers(ps[n]) - 1);
    }
  }

  lemma NextStart(ps: seq<Packet>, n: nat)
    requires AllSendable(ps) && n < |ps|
    ensures Done(ps, n + 1) == Start(ps, n) + Numbers(ps[n]) - 1
    ensures !IsFragmented(ps[n]) ==> Numbers(ps[n]) == 1
  {
  }

  lemma AddThenWrap(a: nat, b: nat)
    ensures (a % SEQUENCE_SPACE + b) % SEQUENCE_SPACE == (a + b) % SEQUENCE_SPACE
  {
  }

  lemma NextDistance(expected: Sequence)
    ensures Distance(expected, (expected + 1) % SEQUENCE_SPACE) == 1
  {
  }

  /** Command k of packet i is in the queue. */
  ghost predicate Stored(r: Receiver, ps: seq<Packet>, q: seq<nat>, i: nat, k: nat) {
    |q| == |r.queue| && i < |ps| &&
    exists j :: 0 <= j < |q| && q[j] == i && HasPiece(r.queue[j], ps[i], k)
  }

  ghost predicate HasPiece(e: Incoming, p: Packet, k: nat) {
    IsFragmented(p) ==> k < |e.fragments| && e.fragments[k]
  }

  /** Command k of packet i will not be lost any more: it is dispatched or in the queue. */
  ghost predicate Kept(r: Receiver, ps: seq<Packet>, q: seq<nat>, i: nat, k: nat) {
    i < |r.dispatched| || Stored(r, ps, q, i, k)
  }

  ghost predicate AllKept(r: Receiver, q: seq<nat>, r': Receiver, q': seq<nat>, ps: seq<Packet>) {
    forall i: nat, k: nat :: Kept(r, ps, q, i, k) ==> Kept(r', ps, q', i, k)
  }

  function DispatchedHead(r: Receiver): Receiver
    requires r.queue != []
  {
    r.(expected := Reached(r.queue[0]), queue := r.queue[1..], dispatched := r.dispatched + [r.queue[0]])
  }

  lemma HeadInOrder(r: Receiver, ps: seq<Packet>, q: seq<nat>)
    requires Undrained(r, ps, q) && r.queue != [] && Ready(r.queue[0], r.expected)
    ensures Undrained(DispatchedHead(r), ps, q[1..])
    ensures AllKept(r, q, DispatchedHead(r), q[1..], ps)
  {
    ReadyIsNext(r, ps, q);
    var r1, n := DispatchedHead(r), |r.dispatched|;
    forall j | 0 <= j < |q[1..]|
      ensures n + 1 <= q[1..][j] < |ps| && Represents(r1.queue[j], ps, q[1..][j])
      ensures Start(ps, q[1..][j]) < Done(ps, n + 1) + SEQUENCE_SPACE / 2
    {
      assert q[0] < q[j + 1] && Represents(r.queue[j + 1], ps, q[j + 1]);
    }
    forall i: nat, k: nat | Kept(r, ps, q, i, k) ensures Kept(r1, ps, q[1..], i, k) {
      if n < i {
        var j :| 0 <= j < |q| && q[j] == i && HasPiece(r.queue[j], ps[i], k);
        assert q[1..][j - 1] == i && HasPiece(r1.queue[j - 1], ps[i], k);
      }
    }
  }

  /** Dispatching hands over packets that continue the ones before, and keeps everything else. */
  lemma {:induction false} DispatchInOrder(r: Receiver, ps: seq<Packet>, q: seq<nat>) returns (q': seq<nat>)
    requires Undrained(r, ps, q)
    ensures Inv(Dispatch(r), ps, q')
    ensures r.dispatched <= Dispatch(r).dispatched
    ensures AllKept(r, q, Dispatch(r), q', ps)
    decreases |r.queue|
  {
    assert |q| == |r.queue|;
    hide Undrained, AllKept;
    q' := q;
    if Drained(r) {
      DispatchNone(r);
      StillInv(r, ps, q);
    } else {
      HeadInOrder(r, ps, q);
      q' := DispatchInOrder(DispatchedHead(r), ps, q[1..]);
      KeptOn(r, q, DispatchedHead(r), q[1..], Dispatch(r), q', ps);
    }
  }

  lemma StillInv(r: Receiver, ps: seq<Packet>, q: seq<nat>)
    requires Undrained(r, ps, q) && Drained(r)
    ensures Inv(r, ps, q) && AllKept(r, q, r, q, ps)
  {
  }

  lemma KeptOn(r: Receiver, q: seq<nat>, r1: Receiver, q1: seq<nat>, r2: Receiver, q2: seq<nat>, ps: seq<Packet>)
    requires AllKept(r, q, r1, q1, ps) && AllKept(r1, q1, r2, q2, ps)
    ensures AllKept(r, q, r2, q2, ps)
  {
  }

  /** A command that fits its place is queued there without disturbing the others. */
  lemma InsertInOrder(r: Receiver, ps: seq<Packet>, q: seq<nat>, i: nat, p: nat, e: Incoming)
    requires Inv(r, ps, q) && p <= |q|
    requires |r.dispatched| <= i < |ps| && Start(ps, i) < Done(ps, |r.dispatched|) + SEQUENCE_SPACE / 2
    requires (forall j :: 0 <= j < p ==> q[j] < i) && (forall j :: p <= j < |q| ==> i < q[j])
    requires Represents(e, ps, i) && EntryOk(e)
    ensures var r1 := r.(queue := r.queue[..p] + [e] + r.queue[p..]);
      Undrained(r1, ps, q[..p] + [i] + q[p..]) && AllKept(r, q, r1, q[..p] + [i] + q[p..], ps)
  {
    hide Represents, EntryOk, HasPiece, Drained, Done, AllKept, InOrder;
    var r1, q1 := r.(queue := r.queue[..p] + [e] + r.queue[p..]), q[..p] + [i] + q[p..];
    forall j | 0 <= j < |q1|
      ensures |r.dispatched| <= q1[j] < |ps| && Represents(r1.queue[j], ps, q1[j]) && EntryOk(r1.queue[j])
      ensures Start(ps, q1[j]) < Done(ps, |r.dispatched|) + SEQUENCE_SPACE / 2
    {
      InsertEntry(r.queue, q, p, e, i, j);
    }
    InsertIncreasing(q, p, i);
    InsertKeeps(r, ps, q, i, p, e);
    SameOrder(r, r1, ps);
  }

  lemma SameOrder(r: Receiver, r1: Receiver, ps: seq<Packet>)
    requires AllSendable(ps) && InOrder(r, ps) && r1.dispatched == r.dispatched && r1.expected == r.expected
    ensures InOrder(r1, ps)
  {
  }

  lemma InsertEntry(queue: seq<Incoming>, q: seq<nat>, p: nat, e: Incoming, i: nat, j: nat)
    requires p <= |q| == |queue| && j <= |q|
    ensures var q1, queue1 := q[..p] + [i] + q[p..], queue[..p] + [e] + queue[p..];
      && |q1| == |queue1| == |q| + 1
      && (j == p ==> q1[j] == i && queue1[j] == e)
      && (j < p ==> q1[j] == q[j] && queue1[j] == queue[j])
      && (p < j ==> q1[j] == q[j - 1] && queue1[j] == queue[j - 1])
  {
  }

  lemma InsertIncreasing(q: seq<nat>, p: nat, i: nat)
    requires p <= |q| && (forall j, l :: 0 <= j < l < |q| ==> q[j] < q[l])
    requires (forall j :: 0 <= j < p ==> q[j] < i) && (forall j :: p <= j < |q| ==> i < q[j])
    ensures var q1 := q[..p] + [i] + q[p..]; forall j, l :: 0 <= j < l < |q1| ==> q1[j] < q1[l]
  {
  }

  lemma InsertKeeps(r: Receiver, ps: seq<Packet>, q: seq<nat>, i: nat, p: nat, e: Incoming)
    requires |q| == |r.queue| && p <= |q| && i < |ps|
    ensures AllKept(r, q, r.(queue := r.queue[..p] + [e] + r.queue[p..]), q[..p] + [i] + q[p..], ps)
  {
    hide HasPiece;
    var r1, q1 := r.(queue := r.queue[..p] + [e] + r.queue[p..]), q[..p] + [i] + q[p..];
    forall i': nat, k: nat | Kept(r, ps, q, i', k) ensures Kept(r1, ps, q1, i', k) {
      if i' >= |r.dispatched| {
        var j :| 0 <= j < |q| && q[j] == i' && HasPiece(r.queue[j], ps[i'], k);
        var j1 := if j < p then j else j + 1;
        assert q1[j1] == i' && r1.queue[j1] == r.queue[j];
      }
    }
  }

  /** A reliable command in order, early, repeated or too far ahead. */
  lemma ReliableStep(r: Receiver, ps: seq<Packet>, q: seq<nat>, i: nat) returns (q': seq<nat>)
    requires Inv(r, ps, q) && i < |ps| && !IsFragmented(ps[i]) && Timely(ps, |r.dispatched|, i, 0)
    ensures var h := HandleReliable(r, CommandOf(ps, i, 0));
      && h.ok && Inv(h.receiver, ps, q') && r.dispatched <= h.receiver.dispatched
      && AllKept(r, q, h.receiver, q', ps)
      && (InWindow(r.expected, Start(ps, i) % SEQUENCE_SPACE) ==> Kept(h.receiver, ps, q', i, 0))
      && (!InWindow(r.expected, Start(ps, i) % SEQUENCE_SPACE) ==> h.receiver == r)
  {
    hide Dispatch, Scan, Represents, EntryOk, InWindow;
    var n, s := |r.dispatched|, Start(ps, i) % SEQUENCE_SPACE;
    q' := q;
    WindowVerdict(Done(ps, n), Start(ps, i));
    Behind(ps, n, i);
    if InWindow(r.expected, s) && s != r.expected {
      ScanFinds(r, ps, q, i, |q|);
      match Scan(r.queue, r.expected, s, |r.queue|)
      case Duplicate(j) =>
        assert HasPiece(r.queue[j], ps[i], 0);
      case At(p) =>
        var e := NewEntry(s, false, 0, ps[i].data);
        ReliableRepresents(ps, i, e);
        InsertInOrder(r, ps, q, i, p, e);
        var r1, q1 := r.(queue := r.queue[..p] + [e] + r.queue[p..]), q[..p] + [i] + q[p..];
        q' := DispatchInOrder(r1, ps, q1);
        KeptOn(r, q, r1, q1, Dispatch(r1), q', ps);
        assert q1[p] == i && HasPiece(r1.queue[p], ps[i], 0);
        assert Kept(r1, ps, q1, i, 0);
    }
  }

  /** A packet that is not dispatched yet starts behind what is; one that is, does not. */
  lemma Behind(ps: seq<Packet>, n: nat, i: nat)
    requires AllSendable(ps) && n <= |ps| && i < |ps|
    ensures n <= i <==> Done(ps, n) < Start(ps, i)
    ensures i < n ==> Start(ps, i) + Numbers(ps[i]) <= Start(ps, n)
  {
    if n < i { StartMonotone(ps, n, i); }
    if i < n { StartMonotone(ps, i, n); }
  }

  lemma ReliableRepresents(ps: seq<Packet>, i: nat, e: Incoming)
    requires AllSendable(ps) && i < |ps| && !IsFragmented(ps[i])
    requires e == NewEntry(Start(ps, i) % SEQUENCE_SPACE, false, 0, ps[i].data)
    ensures Represents(e, ps, i) && EntryOk(e)
  {
    assert e.fragments == [];
  }

  lemma FreshFragments(ps: seq<Packet>, i: nat, blank: seq<Byte>)
    requires AllSendable(ps) && i < |ps| && IsFragmented(ps[i]) && |blank| == |ps[i].data|
    ensures var e := NewEntry(Start(ps, i) % SEQUENCE_SPACE, true, Numbers(ps[i]), blank);
      Represents(e, ps, i) && EntryOk(e) && 0 < e.fragmentsRemaining
  {
    assert 2 <= Numbers(ps[i]);
    hide Numbers, Start, Clear;
    var e := NewEntry(Start(ps, i) % SEQUENCE_SPACE, true, Numbers(ps[i]), blank);
    AllClear(e.fragments);
    forall x | 0 <= x < |e.data| ensures !Arrived(ps[i], e.fragments, x) { }
  }

  lemma MarkedRepresents(e: Incoming, ps: seq<Packet>, i: nat, k: nat)
    requires AllSendable(ps) && i < |ps| && IsFragmented(ps[i]) && k < Numbers(ps[i])
    requires Represents(e, ps, i) && EntryOk(e) && !e.fragments[k]
    ensures var f := CommandOf(ps, i, k);
      && f.offset + |f.data| <= |e.data| && 0 < e.fragmentsRemaining
      && Represents(Marked(e, f), ps, i) && EntryOk(Marked(e, f))
      && Marked(e, f).fragments == e.fragments[k := true]
  {
    hide Numbers;
    ClearAfterMark(e.fragments, k);
    PieceWritten(ps[i], e.fragments, e.data, k);
  }

  /** A fragment written into its packet's entry. */
  lemma MarkStep(r: Receiver, ps: seq<Packet>, q: seq<nat>, j: nat, k: nat) returns (q': seq<nat>)
    requires Inv(r, ps, q) && j < |q| && IsFragmented(ps[q[j]]) && k < Numbers(ps[q[j]])
    ensures var f := CommandOf(ps, q[j], k);
      && k < r.queue[j].fragmentCount && f.offset + |f.data| <= |r.queue[j].data|
      && Inv(Mark(r, j, f), ps, q') && r.dispatched <= Mark(r, j, f).dispatched
      && AllKept(r, q, Mark(r, j, f), q', ps) && Kept(Mark(r, j, f), ps, q', q[j], k)
  {
    var e, i, f := r.queue[j], q[j], CommandOf(ps, q[j], k);
    assert Represents(e, ps, i) && EntryOk(e);
    PieceBounds(ps[i], k);
    hide Dispatch, Numbers, Piece, PiecesIn, Clear;
    q' := q;
    if e.fragments[k] {
      assert HasPiece(e, ps[i], k);
    } else {
      MarkedRepresents(e, ps, i, k);
      var e' := Marked(e, f);
      var r1 := r.(queue := r.queue[j := e']);
      ReplaceInOrder(r, ps, q, j, e');
      assert HasPiece(r1.queue[j], ps[i], k);
      assert Kept(r1, ps, q, i, k);
      if e'.fragmentsRemaining == 0 {
        q' := DispatchInOrder(r1, ps, q);
        KeptOn(r, q, r1, q, Dispatch(r1), q', ps);
      } else {
        StillInv(r1, ps, q);
      }
    }
  }

  lemma ReplaceInOrder(r: Receiver, ps: seq<Packet>, q: seq<nat>, j: nat, e': Incoming)
    requires Inv(r, ps, q) && j < |q| && Represents(e', ps, q[j]) && EntryOk(e')
    requires forall k :: HasPiece(r.queue[j], ps[q[j]], k) ==> HasPiece(e', ps[q[j]], k)
    ensures Undrained(r.(queue := r.queue[j := e']), ps, q)
    ensures AllKept(r, q, r.(queue := r.queue[j := e']), q, ps)
  {
    hide Represents, EntryOk, HasPiece, Drained;
    var r1 := r.(queue := r.queue[j := e']);
    forall i: nat, k: nat | Kept(r, ps, q, i, k) ensures Kept(r1, ps, q, i, k) {
      if i >= |r.dispatched| {
        var l :| 0 <= l < |q| && q[l] == i && HasPiece(r.queue[l], ps[i], k);
        assert HasPiece(r1.queue[l], ps[i], k);
      }
    }
  }

  /** A fragment in or out of order, repeated, first of its packet or not, or too far ahead. */
  lemma FragmentStep(r: Receiver, ps: seq<Packet>, q: seq<nat>, i: nat, k: nat, blank: seq<Byte>) returns (q': seq<nat>)
    requires Inv(r, ps, q) && i < |ps| && IsFragmented(ps[i]) && k < Numbers(ps[i])
    requires Timely(ps, |r.dispatched|, i, k) && |blank| == |ps[i].data|
    ensures var h := HandleFragment(r, CommandOf(ps, i, k), blank);
      && h.ok && Inv(h.receiver, ps, q') && r.dispatched <= h.receiver.dispatched
      && AllKept(r, q, h.receiver, q', ps)
      && (InWindow(r.expected, Start(ps, i) % SEQUENCE_SPACE) ==> Kept(h.receiver, ps, q', i, k))
      && (!InWindow(r.expected, Start(ps, i) % SEQUENCE_SPACE) ==> h.receiver == r)
  {
    var n, s, f := |r.dispatched|, Start(ps, i) % SEQUENCE_SPACE, CommandOf(ps, i, k);
    PieceBounds(ps[i], k);
    WindowVerdict(Done(ps, n), Start(ps, i));
    Behind(ps, n, i);
    hide Dispatch, Scan, Represents, EntryOk, InWindow, Numbers, Piece, Mark, AllKept, Kept;
    q' := q;
    StillInv(r, ps, q);
    if InWindow(r.expected, s) {
      ScanFinds(r, ps, q, i, |q|);
      match Scan(r.queue, r.expected, s, |r.queue|)
      case Duplicate(j) =>
        EntryFields(r.queue[j], ps, i);
        q' := MarkStep(r, ps, q, j, k);
      case At(p) =>
        var q1 := QueueStep(r, ps, q, i, p, blank);
        var r1 := QueueIncoming(r, s, true, Numbers(ps[i]), blank).receiver;
        q' := MarkStep(r1, ps, q1, p, k);
        KeptOn(r, q, r1, q1, Mark(r1, p, f), q', ps);
    }
  }

  lemma EntryFields(e: Incoming, ps: seq<Packet>, i: nat)
    requires AllSendable(ps) && i < |ps| && IsFragmented(ps[i]) && Represents(e, ps, i)
    ensures e.isFragment && e.fragmentCount == Numbers(ps[i]) && |e.data| == |ps[i].data|
  {
  }

  /** The first fragment of a packet to arrive makes its entry; nothing is dispatched by that. */
  lemma QueueStep(r: Receiver, ps: seq<Packet>, q: seq<nat>, i: nat, p: nat, blank: seq<Byte>) returns (q1: seq<nat>)
    requires Inv(r, ps, q) && |r.dispatched| <= i < |ps| && IsFragmented(ps[i]) && |blank| == |ps[i].data|
    requires Start(ps, i) < Done(ps, |r.dispatched|) + SEQUENCE_SPACE / 2
    requires InWindow(r.expected, Start(ps, i) % SEQUENCE_SPACE) && Start(ps, i) % SEQUENCE_SPACE != r.expected
    requires Scan(r.queue, r.expected, Start(ps, i) % SEQUENCE_SPACE, |r.queue|) == At(p) && p <= |q|
    requires (forall j :: 0 <= j < p ==> q[j] < i) && (forall j :: p <= j < |q| ==> i < q[j])
    ensures var queueing := QueueIncoming(r, Start(ps, i) % SEQUENCE_SPACE, true, Numbers(ps[i]), blank);
      && queueing.ok && queueing.position == p && p < |q1| && q1[p] == i
      && Inv(queueing.receiver, ps, q1) && queueing.receiver.dispatched == r.dispatched
      && AllKept(r, q, queueing.receiver, q1, ps)
  {
    hide Dispatch, Scan, Represents, EntryOk, InWindow, Numbers, AllKept;
    var e := NewEntry(Start(ps, i) % SEQUENCE_SPACE, true, Numbers(ps[i]), blank);
    FreshFragments(ps, i, blank);
    InsertInOrder(r, ps, q, i, p, e);
    var r1 := r.(queue := r.queue[..p] + [e] + r.queue[p..]);
    q1 := q[..p] + [i] + q[p..];
    assert r1.queue[0] == if p == 0 then e else r.queue[0];
    DispatchNone(r1);
    StillInv(r1, ps, q1);
  }

  function Handle(ps: seq<Packet>, r: Receiver, i: nat, k: nat, blank: seq<Byte>): (h: Handled)
    requires AllSendable(ps) && Valid(r) && i < |ps| && k < Numbers(ps[i]) && |blank| == |ps[i].data|
    ensures Valid(h.receiver)
  {
    var c := CommandOf(ps, i, k);
    if c.Reliable? then HandleReliable(r, c) else HandleFragment(r, c, blank)
  }

  /** Any timely command, and what its acknowledgement is worth. */
  lemma CommandStep(r: Receiver, ps: seq<Packet>, q: seq<nat>, i: nat, k: nat, blank: seq<Byte>) returns (q': seq<nat>)
    requires Inv(r, ps, q) && i < |ps| && k < Numbers(ps[i])
    requires Timely(ps, |r.dispatched|, i, k) && |blank| == |ps[i].data|
    ensures var h := Handle(ps, r, i, k, blank);
      && h.ok && Inv(h.receiver, ps, q') && r.dispatched <= h.receiver.dispatched
      && AllKept(r, q, h.receiver, q', ps)
      && (Acknowledges(h.receiver, CommandOf(ps, i, k).sequence) ==> Kept(h.receiver, ps, q', i, k))
  {
    hide Dispatch, Scan, Represents, EntryOk, InWindow, HandleReliable, HandleFragment, AllKept;
    var n := |r.dispatched|;
    if IsFragmented(ps[i]) {
      q' := FragmentStep(r, ps, q, i, k, blank);
    } else {
      q' := ReliableStep(r, ps, q, i);
    }
    if !InWindow(r.expected, Start(ps, i) % SEQUENCE_SPACE) && n <= i {
      Behind(ps, n, i);
      WindowVerdict(Done(ps, n), Start(ps, i));
      WindowVerdict(Done(ps, n), Start(ps, i) + k);
      WindowsMonotone(Done(ps, n), Start(ps, i), Start(ps, i) + k);
      TooFar(r.expected, Start(ps, i) % SEQUENCE_SPACE, (Start(ps, i) + k) % SEQUENCE_SPACE);
    }
  }

  lemma TooFar(expected: Sequence, s: Sequence, t: Sequence)
    requires FREE_WINDOWS - 1 <= WindowsAhead(expected, s) <= WindowsAhead(expected, t)
    ensures !InWindow(expected, t)
  {
  }

  /** One delivery by the network: command `piece` of packet `packet`; `blank` is what memory a new
      packet's buffer would start with. */
  datatype Delivery = Delivery(packet: nat, piece: nat, blank: seq<Byte>)

  /** The receiver and the commands it has acknowledged so far. */
  datatype World = World(receiver: Receiver, acknowledged: set<(nat, nat)>)

  const QUIET := World(Receiver(0, [], [], false), {})

  predicate IsCommand(ps: seq<Packet>, d: Delivery)
    requires AllSendable(ps)
  {
    d.packet < |ps| && d.piece < Numbers(ps[d.packet]) && |d.blank| == |ps[d.packet].data|
  }

  /** The network may deliver any command of any packet, any number of times, within the delay bound. */
  predicate Possible(ps: seq<Packet>, w: World, d: Delivery)
    requires AllSendable(ps)
  {
    && |w.receiver.dispatched| <= |ps| && IsCommand(ps, d)
    && Timely(ps, |w.receiver.dispatched|, d.packet, d.piece)
  }

  function Step(ps: seq<Packet>, w: World, d: Delivery): (w': World)
    requires AllSendable(ps) && Valid(w.receiver) && IsCommand(ps, d)
    ensures Valid(w'.receiver)
  {
    var h := Handle(ps, w.receiver, d.packet, d.piece, d.blank);
    if h.ok && Acknowledges(h.receiver, CommandOf(ps, d.packet, d.piece).sequence)
    then World(h.receiver, w.acknowledged + {(d.packet, d.piece)})
    else World(h.receiver, w.acknowledged)
  }

  /** Every delivery of the run is possible when it happens. */
  predicate PossibleRun(ps: seq<Packet>, w: World, run: seq<Delivery>)
    requires AllSendable(ps) && Valid(w.receiver)
    decreases |run|
  {
    run == [] || (Possible(ps, w, run[0]) && PossibleRun(ps, Step(ps, w, run[0]), run[1..]))
  }

  function Run(ps: seq<Packet>, w: World, run: seq<Delivery>): (w': World)
    requires AllSendable(ps) && Valid(w.receiver) && PossibleRun(ps, w, run)
    ensures Valid(w'.receiver)
    decreases |run|
  {
    if run == [] then w else Run(ps, Step(ps, w, run[0]), run[1..])
  }

  /** What every reachable world satisfies. */
  ghost predicate Sound(ps: seq<Packet>, w: World, q: seq<nat>) {
    && Inv(w.receiver, ps, q)
    && forall i: nat, k: nat :: (i, k) in w.acknowledged ==> Kept(w.receiver, ps, q, i, k)
  }

  lemma StepSound(ps: seq<Packet>, w: World, q: seq<nat>, d: Delivery) returns (q': seq<nat>)
    requires Sound(ps, w, q) && Possible(ps, w, d)
    ensures Sound(ps, Step(ps, w, d), q')
    ensures w.receiver.dispatched <= Step(ps, w, d).receiver.dispatched
  {
    hide Handle, Numbers, Acknowledges, Kept;
    q' := CommandStep(w.receiver, ps, q, d.packet, d.piece, d.blank);
  }

  lemma {:induction false} RunSound(ps: seq<Packet>, w: World, q: seq<nat>, run: seq<Delivery>) returns (q': seq<nat>)
    requires Sound(ps, w, q) && PossibleRun(ps, w, run)
    ensures Sound(ps, Run(ps, w, run), q')
    ensures w.receiver.dispatched <= Run(ps, w, run).receiver.dispatched
    decreases |run|
  {
    hide Step, Possible;
    q' := q;
    if run != [] {
      StepPossible(ps, w, run);
      var q1 := StepSound(ps, w, q, run[0]);
      q' := RunSound(ps, Step(ps, w, run[0]), q1, run[1..]);
    }
  }

  lemma StepPossible(ps: seq<Packet>, w: World, run: seq<Delivery>)
    requires AllSendable(ps) && Valid(w.receiver) && PossibleRun(ps, w, run) && run != []
    ensures Possible(ps, w, run[0])
  {
  }

  /** When all commands of the next packet are kept, it would have been dispatched. */
  lemma NextPacketNotComplete(r: Receiver, ps: seq<Packet>, q: seq<nat>)
    requires Inv(r, ps, q) && |r.dispatched| < |ps|
    ensures exists k :: 0 <= k < Numbers(ps[|r.dispatched|]) && !Kept(r, ps, q, |r.dispatched|, k)
  {
    var n := |r.dispatched|;
    var all := Numbers(ps[n]);
    if Kept(r, ps, q, n, 0) {
      var j :| 0 <= j < |q| && q[j] == n && HasPiece(r.queue[j], ps[n], 0);
      FirstInQueue(r, ps, q, j);
      NextUnready(r, ps, q);
      var k := MissingPiece(r.queue[0], ps, n);
      assert !Kept(r, ps, q, n, k) by { OnlyFirst(r, ps, q, n, k); }
    }
  }

  lemma FirstInQueue(r: Receiver, ps: seq<Packet>, q: seq<nat>, j: nat)
    requires Inv(r, ps, q) && j < |q| && q[j] == |r.dispatched|
    ensures j == 0
  {
    assert q[0] <= q[j];
  }

  /** The next packet at the head of a drained queue still lacks a fragment. */
  lemma NextUnready(r: Receiver, ps: seq<Packet>, q: seq<nat>)
    requires Inv(r, ps, q) && |q| > 0 && q[0] == |r.dispatched|
    ensures r.queue[0].fragmentsRemaining != 0 && Represents(r.queue[0], ps, q[0]) && EntryOk(r.queue[0])
  {
    assert Represents(r.queue[0], ps, q[0]);
    AddThenWrap(Done(ps, q[0]), 1);
  }

  lemma MissingPiece(e: Incoming, ps: seq<Packet>, n: nat) returns (k: nat)
    requires AllSendable(ps) && n < |ps| && Represents(e, ps, n) && EntryOk(e) && e.fragmentsRemaining != 0
    ensures k < Numbers(ps[n]) && !HasPiece(e, ps[n], k)
  {
    NoneClear(e.fragments);
    k :| 0 <= k < |e.fragments| && !e.fragments[k];
  }

  lemma OnlyFirst(r: Receiver, ps: seq<Packet>, q: seq<nat>, n: nat, k: nat)
    requires Inv(r, ps, q) && |q| > 0 && q[0] == n == |r.dispatched| && !HasPiece(r.queue[0], ps[n], k)
    ensures !Kept(r, ps, q, n, k)
  {
    forall j | 0 <= j < |q| && q[j] == n ensures j == 0 { FirstInQueue(r, ps, q, j); }
  }

  /** All commands of the first p packets have been acknowledged. */
  ghost predicate AllAcknowledged(ps: seq<Packet>, w: World, p: nat)
    requires AllSendable(ps) && p <= |ps|
  {
    forall i, k :: 0 <= i < p && 0 <= k < Numbers(ps[i]) ==> (i, k) in w.acknowledged
  }

  /** The channel's promise, over every run: what is handed to the application is at all times exactly
      the first packets sent, whole, in order and once each; and as soon as all commands of the first
      p packets have been acknowledged, those p packets have been handed over. */
  lemma ExactlyOnceInOrder(ps: seq<Packet>, run: seq<Delivery>)
    requires AllSendable(ps) && PossibleRun(ps, QUIET, run)
    ensures var w := Run(ps, QUIET, run); InOrder(w.receiver, ps)
    ensures var w := Run(ps, QUIET, run);
      forall p: nat :: p <= |ps| && AllAcknowledged(ps, w, p) ==> p <= |w.receiver.dispatched|
  {
    assert Sound(ps, QUIET, []);
    var q := RunSound(ps, QUIET, [], run);
    var w := Run(ps, QUIET, run);
    var n := |w.receiver.dispatched|;
    if n < |ps| {
      NextPacketNotComplete(w.receiver, ps, q);
      var k :| 0 <= k < Numbers(ps[n]) && !Kept(w.receiver, ps, q, n, k);
      assert (n, k) !in w.acknowledged;
    }
  }

  /** No acknowledged command is lost later: it stays queued until its packet is handed over. */
  lemma AcknowledgedIsKept(ps: seq<Packet>, run: seq<Delivery>, more: seq<Delivery>)
    requires AllSendable(ps) && PossibleRun(ps, QUIET, run) && PossibleRun(ps, Run(ps, QUIET, run), more)
    ensures var w := Run(ps, QUIET, run); var w' := Run(ps, w, more);
      exists q :: Inv(w'.receiver, ps, q) && forall i: nat, k: nat :: (i, k) in w.acknowledged ==>
        Kept(w'.receiver, ps, q, i, k)
  {
    assert Sound(ps, QUIET, []);
    var q := RunSound(ps, QUIET, [], run);
    var w := Run(ps, QUIET, run);
    AcknowledgedGrows(ps, w, more);
    var q' := RunSound(ps, w, q, more);
  }

  lemma {:induction false} AcknowledgedGrows(ps: seq<Packet>, w: World, run: seq<Delivery>)
    requires AllSendable(ps) && Valid(w.receiver) && PossibleRun(ps, w, run)
    ensures w.acknowledged <= Run(ps, w, run).acknowledged
    decreases |run|
  {
    hide Handle, Acknowledges;
    if run != [] {
      AcknowledgedGrows(ps, Step(ps, w, run[0]), run[1..]);
    }
  }

  /** All commands are acknowledged but those in the seventh and eighth window ahead of the last one handed over,
      around the numbers. */
  predicate Answered(base: nat, index: nat) {
    var inWindows := base % WINDOW_SIZE + (index - base) % SEQUENCE_SPACE;
    inWindows < (FREE_WINDOWS - 1) * WINDOW_SIZE || (FREE_WINDOWS + 1) * WINDOW_SIZE <= inWindows
  }

  lemma AcknowledgedByDistance(r: Receiver, base: nat, index: nat)
    requires r.expected == base % SEQUENCE_SPACE
    ensures Acknowledges(r, index % SEQUENCE_SPACE) <==> Answered(base, index)
  {
    WindowsOf(base, index);
  }

  /** So a command handed over before is acknowledged again, unless it is more than 7 windows old, and a new one
      in the window is acknowledged. */
  lemma AcknowledgedNearby(r: Receiver, base: nat, index: nat)
    requires r.expected == base % SEQUENCE_SPACE
    ensures index <= base <= index + (WINDOWS - FREE_WINDOWS - 1) * WINDOW_SIZE ==>
      Acknowledges(r, index % SEQUENCE_SPACE)
    ensures InWindow(r.expected, index % SEQUENCE_SPACE) ==> Acknowledges(r, index % SEQUENCE_SPACE)
  {
    AcknowledgedByDistance(r, base, index);
    WindowsOf(base, index);
    if index <= base < index + SEQUENCE_SPACE { Nearby(base, index); }
  }

  /** The true index of a command. */
  function IndexOf(ps: seq<Packet>, d: Delivery): nat
    requires AllSendable(ps) && d.packet < |ps|
  {
    Start(ps, d.packet) + d.piece
  }

  /** What a delivery adds to the commands acknowledged. */
  ghost predicate Acknowledged(ps: seq<Packet>, w: World, w': World, d: Delivery)
    requires AllSendable(ps) && d.packet < |ps| && |w'.receiver.dispatched| <= |ps|
  {
    var base, index, c := Done(ps, |w'.receiver.dispatched|), IndexOf(ps, d), (d.packet, d.piece);
    && (c in w'.acknowledged <==> (c in w.acknowledged || Answered(base, index)))
    && (index <= base <= index + (WINDOWS - FREE_WINDOWS - 1) * WINDOW_SIZE ==> c in w'.acknowledged)
    && (base < index && InWindow(w'.receiver.expected, index % SEQUENCE_SPACE) ==> c in w'.acknowledged)
  }

  /** Over every run: exactly which deliveries are acknowledged, whether the command is new, waiting or has been
      handed over; and those of the window and the 7 windows before are. */
  lemma DeliveredIsAcknowledged(ps: seq<Packet>, run: seq<Delivery>, d: Delivery)
    requires AllSendable(ps) && PossibleRun(ps, QUIET, run) && Possible(ps, Run(ps, QUIET, run), d)
    ensures PossibleRun(ps, QUIET, run + [d])
    ensures var w, w' := Run(ps, QUIET, run), Run(ps, QUIET, run + [d]);
      |w'.receiver.dispatched| <= |ps| && Acknowledged(ps, w, w', d)
  {
    hide Step, Possible, Acknowledged;
    assert Sound(ps, QUIET, []);
    var q := RunSound(ps, QUIET, [], run);
    RunOneMore(ps, QUIET, run, d);
    StepAcknowledges(ps, Run(ps, QUIET, run), q, d);
  }

  lemma StepAcknowledges(ps: seq<Packet>, w: World, q: seq<nat>, d: Delivery)
    requires Sound(ps, w, q) && Possible(ps, w, d)
    ensures |Step(ps, w, d).receiver.dispatched| <= |ps| && Acknowledged(ps, w, Step(ps, w, d), d)
  {
    hide Handle, InWindow, Inv, Answered, Done, Acknowledges, Numbers, Valid;
    InvExpected(w.receiver, ps, q);
    var q' := CommandStep(w.receiver, ps, q, d.packet, d.piece, d.blank);
    var r := Step(ps, w, d).receiver;
    InvExpected(r, ps, q');
    NumberOf(ps, d);
    AcknowledgedByDistance(r, Done(ps, |r.dispatched|), IndexOf(ps, d));
    AcknowledgedNearby(r, Done(ps, |r.dispatched|), IndexOf(ps, d));
  }

  lemma InvExpected(r: Receiver, ps: seq<Packet>, q: seq<nat>)
    requires Inv(r, ps, q)
    ensures AllSendable(ps) && Valid(r) && |r.dispatched| <= |ps|
    ensures r.expected == Done(ps, |r.dispatched|) % SEQUENCE_SPACE
  {
  }

  lemma NumberOf(ps: seq<Packet>, d: Delivery)
    requires AllSendable(ps) && d.packet < |ps| && d.piece < Numbers(ps[d.packet])
    ensures CommandOf(ps, d.packet, d.piece).sequence == IndexOf(ps, d) % SEQUENCE_SPACE
  {
  }

  lemma {:induction false} RunOneMore(ps: seq<Packet>, w: World, run: seq<Delivery>, d: Delivery)
    requires AllSendable(ps) && Valid(w.receiver) && PossibleRun(ps, w, run) && Possible(ps, Run(ps, w, run), d)
    ensures PossibleRun(ps, w, run + [d]) && Run(ps, w, run + [d]) == Step(ps, Run(ps, w, run), d)
    decreases |run|
  {
    hide Step, Timely;
    var more := run + [d];
    if run == [] {
      assert more == [d] && more[1..] == [];
    } else {
      assert more[0] == run[0] && more[1..] == run[1..] + [d];
      RunOneMore(ps, Step(ps, w, run[0]), run[1..], d);
    }
  }

  /** How old a repeated command may be: the exact distance at which the receiver would take the
      number of an already dispatched command for a new one. */
  lemma TakenForNew(base: nat, index: nat)
    ensures var behind := (base - index) % SEQUENCE_SPACE;
      InWindow(base % SEQUENCE_SPACE, index % SEQUENCE_SPACE) <==>
        behind == 0 || behind > Reach(base)
  {
    WindowsOf(base, index);
    AheadOf(base, index);
    AheadOf(index, base);
  }

  /** With 40961 the last number handed over, a repeat of packet 1 is queued and acknowledged as a new one. */
  lemma OldTakenForNew(data: seq<Byte>)
    ensures var r := Receiver(40961, [], [], false);
      && HandleReliable(r, Reliable(1, data)) == Handled(r.(queue := [NewEntry(1, false, 0, data)]), true)
      && Acknowledges(r, 1)
  {
    TakenForNew(40961, 1);
  }
}
