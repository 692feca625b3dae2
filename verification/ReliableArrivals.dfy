/** Nothing reaches the application that has not arrived whole. */
module ReliableArrivals {
  import opened Octets
  import opened SequenceNumbers
  import opened ReliableReceiver
  import opened PacketStream
  import opened ReliableRuns

  /** Command k of packet i is among the deliveries. */
  ghost predicate Brings(run: seq<Delivery>, i: nat, k: nat) {
    exists j :: 0 <= j < |run| && run[j].packet == i && run[j].piece == k
  }

  /** A packet that differs in piece k alone. */
  function Changed(p: Packet, k: nat): (p': Packet)
    requires Sendable(p) && k < Numbers(p)
    ensures Sendable(p') && p'.data != p.data && IsFragmented(p') == IsFragmented(p) && Numbers(p') == Numbers(p)
    ensures p'.fragmentLength == p.fragmentLength && (IsFragmented(p) ==> |p'.data| == |p.data|)
  {
    if IsFragmented(p) then
      PieceBounds(p, k);
      var at := k * p.fragmentLength;
      assert p.data[at := if p.data[at] == 0 then 1 else 0][at] != p.data[at];
      p.(data := p.data[at := if p.data[at] == 0 then 1 else 0])
    else
      p.(data := if p.data == [] then [0] else [])
  }

  lemma OneNumber(p: Packet)
    requires Sendable(p)
    ensures !IsFragmented(p) ==> Numbers(p) == 1
  {
  }

  lemma OtherPieces(p: Packet, k: nat, l: nat)
    requires Sendable(p) && IsFragmented(p) && k < Numbers(p) && l < Numbers(p) && k != l
    ensures Piece(Changed(p, k), l) == Piece(p, l)
  {
    hide Numbers;
    PieceBounds(p, k);
    PieceBounds(p, l);
    PieceOfByte(p, k * p.fragmentLength, k);
    PieceOfByte(p, k * p.fragmentLength, l);
  }

  lemma {:induction false} SameStart(ps: seq<Packet>, i: nat, p: Packet, n: nat)
    requires AllSendable(ps) && i < |ps| && Sendable(p) && Numbers(p) == Numbers(ps[i]) && n <= |ps|
    ensures Start(ps[i := p], n) == Start(ps, n)
  {
    hide Numbers;
    if n > 0 { SameStart(ps, i, p, n - 1); }
  }

  /** No other command tells the difference. */
  lemma SameCommand(ps: seq<Packet>, i: nat, k: nat, d: Delivery)
    requires AllSendable(ps) && i < |ps| && k < Numbers(ps[i]) && IsCommand(ps, d) && (d.packet, d.piece) != (i, k)
    ensures var ps' := ps[i := Changed(ps[i], k)];
      IsCommand(ps', d) && CommandOf(ps', d.packet, d.piece) == CommandOf(ps, d.packet, d.piece)
  {
    hide Numbers, Piece, Changed, Start;
    SameStart(ps, i, Changed(ps[i], k), d.packet);
    OneNumber(ps[i]);
    if d.packet == i && IsFragmented(ps[i]) { OtherPieces(ps[i], k, d.piece); }
  }

  /** So no run without it does either. */
  lemma {:induction false} SameRun(ps: seq<Packet>, i: nat, k: nat, w: World, q: seq<nat>, run: seq<Delivery>)
    requires AllSendable(ps) && i < |ps| && Sound(ps, w, q) && PossibleRun(ps, w, run)
    requires k < Numbers(ps[i]) && !Brings(run, i, k)
    ensures var ps' := ps[i := Changed(ps[i], k)]; PossibleRun(ps', w, run) && Run(ps', w, run) == Run(ps, w, run)
    decreases |run|
  {
    hide HandleReliable, HandleFragment, Acknowledges, Numbers, Changed, Start;
    if run != [] {
      var d, ps' := run[0], ps[i := Changed(ps[i], k)];
      SameCommand(ps, i, k, d);
      SameStart(ps, i, ps'[i], d.packet);
      SameStart(ps, i, ps'[i], |w.receiver.dispatched|);
      assert Step(ps', w, d) == Step(ps, w, d);
      var q' := StepSound(ps, w, q, d);
      assert forall j :: 0 <= j < |run[1..]| ==> run[1..][j] == run[j + 1];
      SameRun(ps, i, k, Step(ps, w, d), q', run[1..]);
    }
  }

  /** Over every run, every command of a packet handed over has been delivered. */
  lemma HandedOverArrived(ps: seq<Packet>, run: seq<Delivery>, i: nat, k: nat)
    requires AllSendable(ps) && PossibleRun(ps, QUIET, run)
    requires i < |Run(ps, QUIET, run).receiver.dispatched| && i < |ps| && k < Numbers(ps[i])
    ensures Brings(run, i, k)
  {
    if !Brings(run, i, k) {
      var ps' := ps[i := Changed(ps[i], k)];
      assert Sound(ps, QUIET, []) && Sound(ps', QUIET, []);
      SameRun(ps, i, k, QUIET, [], run);
      var q := RunSound(ps, QUIET, [], run);
      var q' := RunSound(ps', QUIET, [], run);
      assert false;
    }
  }
}
