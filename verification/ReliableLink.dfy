/** Both ends of a reliable channel: the sender with its windows (enet/protocol.c), a network that loses, repeats and
    reorders what it carries, the receiver, and the acknowledgements on their way back. */
module ReliableLink {
  import opened Octets
  import opened SequenceNumbers
  import opened ReliableReceiver
  import opened PacketStream
  import opened ReliableRuns
  import opened ReliableArrivals
  import InFlight

  /** The receiver's world, the last number sent, and the numbers sent that the sender has not heard of again. */
  datatype Link = Link(world: World, last: nat, inFlight: set<nat>)

  const SILENT := Link(QUIET, 0, {})

  datatype Action = Send | Deliver(delivery: Delivery) | Hear(index: nat)

  /** What is in flight in one of the sixteen windows. */
  ghost function InThat(inFlight: set<nat>, v: nat): set<nat> {
    set t | t in inFlight && t / WINDOW_SIZE % WINDOWS == v
  }

  /** The windows a channel must not run into with the first command of window w, with or without those around the end
      of the numbers. */
  predicate Masked(w: nat, v: nat, wraps: bool) {
    w <= v < w + FREE_WINDOWS || (wraps && v + WINDOWS < w + FREE_WINDOWS)
  }

  /** Number t, the first of its window, must wait. */
  ghost predicate Held(t: nat, inFlight: set<nat>, wraps: bool) {
    var w := t / WINDOW_SIZE % WINDOWS;
    && t % WINDOW_SIZE == 0
    && (|InThat(inFlight, (w + WINDOWS - 1) % WINDOWS)| >= WINDOW_SIZE ||
        exists u :: u in inFlight && Masked(w, u / WINDOW_SIZE % WINDOWS, wraps))
  }

  /** The number has been acknowledged by the receiver. */
  ghost predicate Answers(ps: seq<Packet>, w: World, t: nat)
    requires AllSendable(ps)
  {
    exists i: nat, k: nat :: (i, k) in w.acknowledged && i < |ps| && k < Numbers(ps[i]) && Start(ps, i) + k == t
  }

  /** The true index up to which everything has been handed over. */
  function Base(ps: seq<Packet>, l: Link): nat
    requires AllSendable(ps) && |l.world.receiver.dispatched| <= |ps|
  {
    Done(ps, |l.world.receiver.dispatched|)
  }

  /** What can happen next. A copy arrives of any command sent: one the sender still has in flight, or one that has
      been acknowledged and is not too old. */
  ghost predicate Can(ps: seq<Packet>, l: Link, a: Action, wraps: bool)
    requires AllSendable(ps)
  {
    && |l.world.receiver.dispatched| <= |ps|
    && match a
       case Send => l.last < Done(ps, |ps|) && !Held(l.last + 1, l.inFlight, wraps)
       case Deliver(d) =>
         && IsCommand(ps, d) && IndexOf(ps, d) <= l.last
         && ((IndexOf(ps, d) in l.inFlight && d.piece <= WINDOW_SIZE) ||
             Base(ps, l) <= Start(ps, d.packet) + Reach(Base(ps, l)))
       case Hear(t) => Answers(ps, l.world, t)
  }

  ghost function After(ps: seq<Packet>, l: Link, a: Action, wraps: bool): (l': Link)
    requires AllSendable(ps) && Valid(l.world.receiver) && Can(ps, l, a, wraps)
    ensures Valid(l'.world.receiver)
  {
    match a
    case Send => l.(last := l.last + 1, inFlight := l.inFlight + {l.last + 1})
    case Deliver(d) => l.(world := Step(ps, l.world, d))
    case Hear(t) => l.(inFlight := l.inFlight - {t})
  }

  ghost predicate CanRun(ps: seq<Packet>, l: Link, actions: seq<Action>, wraps: bool)
    requires AllSendable(ps) && Valid(l.world.receiver)
    decreases |actions|
  {
    actions == [] ||
    (Can(ps, l, actions[0], wraps) && CanRun(ps, After(ps, l, actions[0], wraps), actions[1..], wraps))
  }

  ghost function Play(ps: seq<Packet>, l: Link, actions: seq<Action>, wraps: bool): (l': Link)
    requires AllSendable(ps) && Valid(l.world.receiver) && CanRun(ps, l, actions, wraps)
    ensures Valid(l'.world.receiver)
    decreases |actions|
  {
    if actions == [] then l else Play(ps, After(ps, l, actions[0], wraps), actions[1..], wraps)
  }

  /** What sender and receiver keep together: nothing sent is more than 7 windows ahead of what is handed over, nothing
      in flight more than 8 windows behind what is sent, and what is not in flight any more was acknowledged when it
      was no more than 6 windows ahead. */
  ghost predicate Near(ps: seq<Packet>, l: Link)
    requires AllSendable(ps) && |l.world.receiver.dispatched| <= |ps|
  {
    var w := Base(ps, l) / WINDOW_SIZE;
    && Base(ps, l) <= l.last <= Done(ps, |ps|)
    && l.last / WINDOW_SIZE <= w + FREE_WINDOWS - 1
    && (forall t :: t in l.inFlight ==> 1 <= t <= l.last && l.last / WINDOW_SIZE <= t / WINDOW_SIZE + FREE_WINDOWS)
    && (forall t :: 1 <= t <= l.last && t !in l.inFlight ==> Answers(ps, l.world, t))
    && (forall t: nat :: Answers(ps, l.world, t) ==> t / WINDOW_SIZE <= w + FREE_WINDOWS - 2)
  }

  /** The link came about by this run of deliveries, all of commands sent. */
  ghost predicate Linked(ps: seq<Packet>, l: Link, run: seq<Delivery>) {
    && AllSendable(ps) && PossibleRun(ps, QUIET, run) && l.world == Run(ps, QUIET, run)
    && |l.world.receiver.dispatched| <= |ps|
    && (forall j :: 0 <= j < |run| ==> run[j].packet < |ps| && IndexOf(ps, run[j]) <= l.last)
    && Near(ps, l)
  }

  function Interval(from: nat, to: nat): (s: set<nat>)
    requires from <= to
    ensures |s| == to - from && forall t :: t in s <==> from <= t < to
  {
    if from == to then {} else Interval(from, to - 1) + {to - 1}
  }

  lemma {:induction false} SubsetSize(a: set<nat>, b: set<nat>)
    requires a <= b
    ensures |a| <= |b|
  {
    if a != {} {
      var t :| t in a;
      SubsetSize(a - {t}, b - {t});
    }
  }

  lemma InWindowOf(t: nat, w: nat)
    ensures w * WINDOW_SIZE <= t < (w + 1) * WINDOW_SIZE <==> t / WINDOW_SIZE == w
  {
  }

  lemma WholeWindow(inFlight: set<nat>, w: nat)
    requires forall t :: w * WINDOW_SIZE <= t < (w + 1) * WINDOW_SIZE ==> t in inFlight
    ensures |InThat(inFlight, w % WINDOWS)| >= WINDOW_SIZE
  {
    var all := Interval(w * WINDOW_SIZE, (w + 1) * WINDOW_SIZE);
    forall t | t in all ensures t in InThat(inFlight, w % WINDOWS) { InWindowOf(t, w); }
    SubsetSize(all, InThat(inFlight, w % WINDOWS));
  }

  /** A window that is not full of commands in flight has one that is not. */
  lemma NotFull(inFlight: set<nat>, w: nat) returns (t: nat)
    requires |InThat(inFlight, w % WINDOWS)| < WINDOW_SIZE
    ensures t / WINDOW_SIZE == w && t !in inFlight && w * WINDOW_SIZE <= t
  {
    hide InThat;
    if forall x :: w * WINDOW_SIZE <= x < (w + 1) * WINDOW_SIZE ==> x in inFlight {
      WholeWindow(inFlight, w);
    }
    t :| w * WINDOW_SIZE <= t < (w + 1) * WINDOW_SIZE && t !in inFlight;
    InWindowOf(t, w);
  }

  /** Nine windows back is seven windows ahead, around the numbers. */
  lemma NineBack(v: nat)
    ensures Masked((v + FREE_WINDOWS + 1) % WINDOWS, v % WINDOWS, true)
  {
  }

  /** The first number of a window: the window before holds an acknowledged command, so the receiver has come to its
      seventh window before, and none of the eight windows ahead, around the numbers, holds one in flight. */
  lemma AcrossWindows(ps: seq<Packet>, l: Link, w: nat)
    requires AllSendable(ps) && |l.world.receiver.dispatched| <= |ps| && Near(ps, l)
    requires l.last + 1 == w * WINDOW_SIZE && w > 0 && !Held(l.last + 1, l.inFlight, true)
    ensures w <= Base(ps, l) / WINDOW_SIZE + FREE_WINDOWS - 1
    ensures forall x :: x in l.inFlight ==> w <= x / WINDOW_SIZE + FREE_WINDOWS
  {
    hide Answers, Base, Masked, InThat;
    assert l.last / WINDOW_SIZE == w - 1 && (w % WINDOWS + WINDOWS - 1) % WINDOWS == (w - 1) % WINDOWS;
    var u := NotFull(l.inFlight, w - 1);
    assert w < FREE_WINDOWS || Answers(ps, l.world, u);
    forall x | x in l.inFlight ensures w <= x / WINDOW_SIZE + FREE_WINDOWS {
      NineBack(x / WINDOW_SIZE);
    }
  }

  /** A first sending, and what the test of the first number of a window is for. */
  lemma SendNear(ps: seq<Packet>, l: Link)
    requires AllSendable(ps) && |l.world.receiver.dispatched| <= |ps| && Near(ps, l) && Can(ps, l, Send, true)
    ensures Near(ps, l.(last := l.last + 1, inFlight := l.inFlight + {l.last + 1}))
  {
    hide Answers, Done, Held;
    var t := l.last + 1;
    if t % WINDOW_SIZE == 0 {
      AcrossWindows(ps, l, t / WINDOW_SIZE);
    } else {
      assert l.last / WINDOW_SIZE == t / WINDOW_SIZE;
    }
  }

  /** So what arrives is timely: the sender's windows see to it for what is in flight. */
  lemma DeliveryIsTimely(ps: seq<Packet>, l: Link, d: Delivery, wraps: bool)
    requires AllSendable(ps) && |l.world.receiver.dispatched| <= |ps| && Near(ps, l) && Can(ps, l, Deliver(d), wraps)
    ensures Possible(ps, l.world, d)
  {
    hide Answers, Done, Numbers, Start;
  }

  /** Everything handed over has been sent. */
  lemma BaseSent(ps: seq<Packet>, run: seq<Delivery>, last: nat)
    requires AllSendable(ps) && PossibleRun(ps, QUIET, run) && |Run(ps, QUIET, run).receiver.dispatched| <= |ps|
    requires forall j :: 0 <= j < |run| ==> run[j].packet < |ps| && IndexOf(ps, run[j]) <= last
    ensures Done(ps, |Run(ps, QUIET, run).receiver.dispatched|) <= last
  {
    hide Numbers, Run, PossibleRun;
    var n := |Run(ps, QUIET, run).receiver.dispatched|;
    if n > 0 {
      HandedOverArrived(ps, run, n - 1, Numbers(ps[n - 1]) - 1);
    }
  }

  lemma BaseGrows(ps: seq<Packet>, n: nat, m: nat)
    requires AllSendable(ps) && n <= m <= |ps|
    ensures Done(ps, n) <= Done(ps, m)
  {
    if n < m { StartMonotone(ps, n, m); }
  }

  lemma QuietSound(ps: seq<Packet>)
    requires AllSendable(ps)
    ensures Valid(QUIET.receiver) && Sound(ps, QUIET, [])
  {
  }

  /** An arrival: what is acknowledged now is no more than 6 windows ahead. */
  lemma DeliverLinked(ps: seq<Packet>, l: Link, run: seq<Delivery>, d: Delivery, wraps: bool)
    requires Linked(ps, l, run) && Can(ps, l, Deliver(d), wraps)
    ensures Valid(l.world.receiver) && Linked(ps, After(ps, l, Deliver(d), wraps), run + [d])
  {
    hide Numbers, Run, PossibleRun, Handle, Acknowledges, Timely, Valid, Done, Acknowledged, Answered, Near;
    DeliveryIsTimely(ps, l, d, wraps);
    QuietSound(ps);
    var q := RunSound(ps, QUIET, [], run);
    var q' := StepSound(ps, l.world, q, d);
    RunOneMore(ps, QUIET, run, d);
    DeliveredIsAcknowledged(ps, run, d);
    var l' := After(ps, l, Deliver(d), wraps);
    BaseSent(ps, run + [d], l.last);
    DeliverNear(ps, l, l', d);
  }

  lemma DeliverNear(ps: seq<Packet>, l: Link, l': Link, d: Delivery)
    requires AllSendable(ps) && |l.world.receiver.dispatched| <= |l'.world.receiver.dispatched| <= |ps| && Near(ps, l)
    requires IsCommand(ps, d) && IndexOf(ps, d) <= l.last && Acknowledged(ps, l.world, l'.world, d)
    requires l'.last == l.last && l'.inFlight == l.inFlight && Base(ps, l') <= l.last
    requires l.world.acknowledged <= l'.world.acknowledged <= l.world.acknowledged + {(d.packet, d.piece)}
    ensures Near(ps, l')
  {
    hide Numbers, Done;
    BaseGrows(ps, |l.world.receiver.dispatched|, |l'.world.receiver.dispatched|);
    forall t: nat | Answers(ps, l'.world, t)
      ensures t / WINDOW_SIZE <= Base(ps, l') / WINDOW_SIZE + FREE_WINDOWS - 2
    {
      if !Answers(ps, l.world, t) {
        assert t == IndexOf(ps, d);
        AnsweredAhead(Base(ps, l'), t);
      }
    }
  }

  /** Within 7 windows ahead, what is answered is within 6. */
  lemma AnsweredAhead(base: nat, t: nat)
    requires Answered(base, t) && t / WINDOW_SIZE <= base / WINDOW_SIZE + FREE_WINDOWS - 1
    ensures t / WINDOW_SIZE <= base / WINDOW_SIZE + FREE_WINDOWS - 2
  {
    if base <= t { Nearby(base, t); }
  }

  lemma StepLinked(ps: seq<Packet>, l: Link, run: seq<Delivery>, a: Action) returns (run': seq<Delivery>)
    requires Linked(ps, l, run) && Can(ps, l, a, true)
    ensures Valid(l.world.receiver) && Linked(ps, After(ps, l, a, true), run')
  {
    hide Numbers, Run, PossibleRun, Step, Can, Near;
    run' := run;
    match a
    case Send =>
      SendNear(ps, l);
    case Deliver(d) =>
      DeliverLinked(ps, l, run, d, true);
      run' := run + [d];
    case Hear(t) =>
      HearNear(ps, l, t);
  }

  /** Every run of the link keeps it so. */
  lemma {:induction false} PlayLinked(ps: seq<Packet>, l: Link, run: seq<Delivery>, actions: seq<Action>)
      returns (run': seq<Delivery>)
    requires Linked(ps, l, run) && Valid(l.world.receiver) && CanRun(ps, l, actions, true)
    ensures Linked(ps, Play(ps, l, actions, true), run')
    decreases |actions|
  {
    assert AllSendable(ps);
    hide Linked, Can, After, Valid;
    run' := run;
    if actions != [] {
      run' := StepLinked(ps, l, run, actions[0]);
      run' := PlayLinked(ps, After(ps, l, actions[0], true), run', actions[1..]);
    }
  }

  lemma HearNear(ps: seq<Packet>, l: Link, t: nat)
    requires AllSendable(ps) && |l.world.receiver.dispatched| <= |ps| && Near(ps, l) && Can(ps, l, Hear(t), true)
    ensures Near(ps, l.(inFlight := l.inFlight - {t}))
  {
  }

  lemma SilentLinked(ps: seq<Packet>)
    requires AllSendable(ps)
    ensures Valid(SILENT.world.receiver) && Linked(ps, SILENT, [])
  {
    if |ps| > 0 { StartMonotone(ps, 0, |ps|); }
  }

  /** The whole channel, over every run: what the application gets is at all times the first packets sent, whole, in
      order and once each; and as soon as none of the commands of the first p packets is in flight any more for the
      sender, these packets have been handed over. */
  lemma SentIsHandedOver(ps: seq<Packet>, actions: seq<Action>)
    requires AllSendable(ps) && Valid(QUIET.receiver) && CanRun(ps, SILENT, actions, true)
    ensures var l := Play(ps, SILENT, actions, true);
      && InOrder(l.world.receiver, ps)
      && forall p: nat :: p <= |ps| && Done(ps, p) <= l.last && (forall t :: t in l.inFlight ==> Done(ps, p) < t) ==>
        p <= |l.world.receiver.dispatched|
  {
    hide Numbers, PossibleRun, Run, CanRun, Play, Valid, InOrder, Done;
    SilentLinked(ps);
    var run := PlayLinked(ps, SILENT, [], actions);
    var l := Play(ps, SILENT, actions, true);
    ExactlyOnceInOrder(ps, run);
    forall p: nat | p <= |ps| && Done(ps, p) <= l.last && (forall t :: t in l.inFlight ==> Done(ps, p) < t)
      ensures AllAcknowledged(ps, l.world, p)
    {
      AnsweredAll(ps, l, p);
    }
  }

  lemma AnsweredAll(ps: seq<Packet>, l: Link, p: nat)
    requires AllSendable(ps) && |l.world.receiver.dispatched| <= |ps| && Near(ps, l)
    requires p <= |ps| && Done(ps, p) <= l.last && forall t :: t in l.inFlight ==> Done(ps, p) < t
    ensures AllAcknowledged(ps, l.world, p)
  {
    hide Numbers, Start;
    forall i, k | 0 <= i < p && 0 <= k < Numbers(ps[i]) ensures (i, k) in l.world.acknowledged {
      StartMonotone(ps, i, p);
      var t := Start(ps, i) + k;
      assert Answers(ps, l.world, t);
      var i': nat, k': nat :|
        (i', k') in l.world.acknowledged && i' < |ps| && k' < Numbers(ps[i']) && Start(ps, i') + k' == t;
      if i' < i { StartMonotone(ps, i', i); }
      if i < i' { StartMonotone(ps, i, i'); }
    }
  }

  /** A command in flight is acknowledged whenever a copy of it arrives after it was handed over, unless the window
      last handed over is the eighth behind it. */
  lemma InFlightAnswered(ps: seq<Packet>, l: Link, t: nat)
    requires AllSendable(ps) && |l.world.receiver.dispatched| <= |ps| && Near(ps, l)
    requires t in l.inFlight && t <= Base(ps, l)
    ensures Answered(Base(ps, l), t) <==> Base(ps, l) / WINDOW_SIZE != t / WINDOW_SIZE + FREE_WINDOWS
    ensures !InWindow(Base(ps, l) % SEQUENCE_SPACE, t % SEQUENCE_SPACE) || t == Base(ps, l)
  {
    hide Answers, Done;
    Nearby(Base(ps, l), t);
    TakenForNew(Base(ps, l), t);
  }

  // Runs that come to an end of these conditions

  /** All of the first m packets, of one command each, have been sent and handed over. */
  ghost predicate AllHandedOver(ps: seq<Packet>, l: Link, m: nat, inFlight: set<nat>) {
    && l.last == m && l.inFlight == inFlight && Valid(l.world.receiver)
    && l.world.receiver.expected == m && l.world.receiver.queue == [] && !l.world.receiver.leaving
    && |l.world.receiver.dispatched| == m <= |ps|
  }

  predicate Empties(ps: seq<Packet>) {
    forall i :: 0 <= i < |ps| ==> ps[i] == Packet([], 1)
  }

  lemma {:induction false} EmptiesStart(ps: seq<Packet>, i: nat)
    requires Empties(ps) && i <= |ps|
    ensures AllSendable(ps) && Start(ps, i) == i + 1
  {
    if i > 0 { EmptiesStart(ps, i - 1); }
  }

  /** The next command in order is handed over at once, and acknowledged. */
  lemma NextHandled(r: Receiver, data: seq<Byte>)
    requires r.queue == [] && !r.leaving && r.expected + 1 < SEQUENCE_SPACE
    ensures var h := HandleReliable(r, Reliable(r.expected + 1, data));
      && h.ok && Acknowledges(h.receiver, r.expected + 1)
      && h.receiver == Receiver(r.expected + 1, [],
                                r.dispatched + [NewEntry(r.expected + 1, false, 0, data)], false)
  {
    var e := NewEntry(r.expected + 1, false, 0, data);
    var r1 := r.(queue := [e]);
    assert r.queue[..0] + [e] + r.queue[0..] == [e] && [e][1..] == [];
    assert Ready(e, r.expected) && Reached(e) == e.sequence;
    assert Dispatch(r1) == Dispatch(Receiver(e.sequence, [], r.dispatched + [e], false));
    assert Dispatch(r1) == Receiver(e.sequence, [], r.dispatched + [e], false);
  }

  lemma {:induction false} PlayMore(ps: seq<Packet>, l: Link, actions: seq<Action>, a: Action, wraps: bool)
    requires AllSendable(ps) && Valid(l.world.receiver) && CanRun(ps, l, actions, wraps)
    requires Can(ps, Play(ps, l, actions, wraps), a, wraps)
    ensures CanRun(ps, l, actions + [a], wraps)
    ensures Play(ps, l, actions + [a], wraps) == After(ps, Play(ps, l, actions, wraps), a, wraps)
    decreases |actions|
  {
    hide Can, After;
    var more := actions + [a];
    if actions == [] {
      assert more == [a] && more[1..] == [];
    } else {
      assert more[0] == actions[0] && more[1..] == actions[1..] + [a];
      PlayMore(ps, After(ps, l, actions[0], wraps), actions[1..], a, wraps);
    }
  }

  /** With number 1 in flight alone, the next one need not wait until the windows from it on come around to number 1;
      if nobody looks that far around, until the numbers begin again. */
  lemma NotHeld(t: nat, inFlight: set<nat>, wraps: bool)
    requires inFlight <= {1} && 1 <= t < if wraps then (FREE_WINDOWS + 1) * WINDOW_SIZE else SEQUENCE_SPACE
    ensures !Held(t, inFlight, wraps)
  {
    SubsetSize(InThat(inFlight, (t / WINDOW_SIZE % WINDOWS + WINDOWS - 1) % WINDOWS), {1});
  }

  lemma SendAndDeliver(ps: seq<Packet>, l: Link, m: nat, wraps: bool) returns (l': Link)
    requires Empties(ps) && AllHandedOver(ps, l, m, l.inFlight) && m < |ps| && l.inFlight <= {1}
    requires m + 1 < if wraps then (FREE_WINDOWS + 1) * WINDOW_SIZE else SEQUENCE_SPACE
    ensures AllSendable(ps) && Can(ps, l, Send, wraps)
    ensures var (l1, d) := (After(ps, l, Send, wraps), Deliver(Delivery(m, 0, [])));
      && Can(ps, l1, d, wraps) && l' == After(ps, l1, d, wraps)
      && AllHandedOver(ps, l', m + 1, l.inFlight + {m + 1}) && Can(ps, l', Hear(m + 1), wraps)
  {
    NotHeld(m + 1, l.inFlight, wraps);
    EmptiesStart(ps, m);
    EmptiesStart(ps, |ps|);
    hide Held, Step, Start, Valid;
    var l1, d := After(ps, l, Send, wraps), Delivery(m, 0, []);
    StepInOrder(ps, l.world, m);
    l' := After(ps, l1, Deliver(d), wraps);
  }

  lemma StepInOrder(ps: seq<Packet>, w: World, m: nat)
    requires Empties(ps) && m < |ps| && m + 1 < SEQUENCE_SPACE && Valid(w.receiver)
    requires w.receiver.expected == m && w.receiver.queue == [] && !w.receiver.leaving
    ensures AllSendable(ps) && IsCommand(ps, Delivery(m, 0, []))
    ensures var w' := Step(ps, w, Delivery(m, 0, []));
      && (m, 0) in w'.acknowledged && w'.receiver.expected == m + 1 && w'.receiver.queue == []
      && !w'.receiver.leaving && |w'.receiver.dispatched| == |w.receiver.dispatched| + 1
  {
    EmptiesStart(ps, m);
    hide HandleReliable, Acknowledges, Start;
    NextHandled(w.receiver, []);
  }

  /** So each can be sent, handed over and heard of, but number 1 not heard of. */
  lemma {:induction false} AllButOne(ps: seq<Packet>, m: nat, wraps: bool) returns (actions: seq<Action>)
    requires Empties(ps) && 1 <= m <= |ps|
    requires m < if wraps then (FREE_WINDOWS + 1) * WINDOW_SIZE else SEQUENCE_SPACE
    ensures AllSendable(ps) && Valid(SILENT.world.receiver) && CanRun(ps, SILENT, actions, wraps)
    ensures AllHandedOver(ps, Play(ps, SILENT, actions, wraps), m, {1})
  {
    hide Can, After;
    actions := [];
    var l, d := SILENT, Deliver(Delivery(m - 1, 0, []));
    if m > 1 {
      actions := AllButOne(ps, m - 1, wraps);
      l := Play(ps, SILENT, actions, wraps);
    }
    var l' := SendAndDeliver(ps, l, m - 1, wraps);
    PlayMore(ps, SILENT, actions, Send, wraps);
    PlayMore(ps, SILENT, actions + [Send], d, wraps);
    actions := actions + [Send] + [d];
    if m > 1 {
      HeardOf(ps, l', m, wraps);
      PlayMore(ps, SILENT, actions, Hear(m), wraps);
      actions := actions + [Hear(m)];
    }
  }

  lemma HeardOf(ps: seq<Packet>, l: Link, m: nat, wraps: bool)
    requires m > 1 && AllSendable(ps) && AllHandedOver(ps, l, m, {1} + {m}) && Can(ps, l, Hear(m), wraps)
    ensures AllHandedOver(ps, After(ps, l, Hear(m), wraps), m, {1})
  {
  }

  /** A run ends with number 1 in flight and handed over, and no copy of it is acknowledged any more. */
  lemma Unanswered(ps: seq<Packet>) returns (actions: seq<Action>)
    requires Empties(ps) && |ps| == FREE_WINDOWS * WINDOW_SIZE
    ensures AllSendable(ps) && Valid(SILENT.world.receiver) && CanRun(ps, SILENT, actions, true)
    ensures var l := Play(ps, SILENT, actions, true);
      && 1 in l.inFlight && |l.world.receiver.dispatched| == |ps|
      && HandleReliable(l.world.receiver, CommandOf(ps, 0, 0)).receiver == l.world.receiver
      && !Acknowledges(l.world.receiver, 1)
  {
    actions := AllButOne(ps, |ps|, true);
  }

  /** And if the windows around the end of the numbers are not looked at, a run ends with number 1 in flight and handed
      over, and a copy of it is queued as a new packet. */
  lemma Lapped(ps: seq<Packet>) returns (actions: seq<Action>)
    requires Empties(ps) && |ps| == 40961
    ensures AllSendable(ps) && Valid(SILENT.world.receiver) && CanRun(ps, SILENT, actions, false)
    ensures var l := Play(ps, SILENT, actions, false);
      && 1 in l.inFlight && |l.world.receiver.dispatched| == |ps|
      && HandleReliable(l.world.receiver, CommandOf(ps, 0, 0)).receiver ==
           l.world.receiver.(queue := [NewEntry(1, false, 0, [])])
  {
    actions := AllButOne(ps, |ps|, false);
  }

  // What the sender's lists say of the numbers in flight

  /** The counts of the sender's lists are those of the numbers in flight. */
  ghost predicate Matches(sent: seq<InFlight.Outgoing>, outgoing: seq<InFlight.Outgoing>, c: nat, inFlight: set<nat>) {
    forall v: InFlight.Window {:trigger InThat(inFlight, v)} ::
      InFlight.Unacknowledged(sent, outgoing, c, v) == |InThat(inFlight, v)|
  }

  lemma WindowIs(t: nat)
    ensures t % SEQUENCE_SPACE / WINDOW_SIZE == t / WINDOW_SIZE % WINDOWS
    ensures t % SEQUENCE_SPACE % WINDOW_SIZE == t % WINDOW_SIZE
  {
  }

  lemma SomeIn(inFlight: set<nat>, v: nat)
    ensures |InThat(inFlight, v)| > 0 <==> exists u :: u in inFlight && u / WINDOW_SIZE % WINDOWS == v
  {
    var those := InThat(inFlight, v);
    if those != {} {
      var u :| u in those;
      assert u in inFlight && u / WINDOW_SIZE % WINDOWS == v;
    }
    if u :| u in inFlight && u / WINDOW_SIZE % WINDOWS == v {
      assert u in those;
    }
  }

  /** Then the sender's test of its counts and windows is the test of the numbers in flight. */
  lemma HeldIsHeldBack(sent: seq<InFlight.Outgoing>, outgoing: seq<InFlight.Outgoing>, channels: nat,
                       wrapped: InFlight.Window -> set<InFlight.Window>, t: nat, inFlight: set<nat>, wraps: bool)
    requires outgoing != [] && outgoing[0].sendAttempts == 0 && outgoing[0].channel < channels
    requires outgoing[0].sequence == t % SEQUENCE_SPACE && Matches(sent, outgoing, outgoing[0].channel, inFlight)
    requires forall w: InFlight.Window, v: InFlight.Window ::
      v in wrapped(w) <==> wraps && v + WINDOWS < w + FREE_WINDOWS
    ensures InFlight.HeldBack(sent, outgoing, channels, wrapped) <==> Held(t, inFlight, wraps)
  {
    hide InFlight.Unacknowledged, InThat;
    var c, w := outgoing[0].channel, t / WINDOW_SIZE % WINDOWS;
    WindowIs(t);
    assert InFlight.Unacknowledged(sent, outgoing, c, (w + WINDOWS - 1) % WINDOWS) ==
      |InThat(inFlight, (w + WINDOWS - 1) % WINDOWS)|;
    if v: InFlight.Window :|
      (w <= v < w + FREE_WINDOWS || v in wrapped(w)) && InFlight.Unacknowledged(sent, outgoing, c, v) > 0
    {
      assert InFlight.Unacknowledged(sent, outgoing, c, v) == |InThat(inFlight, v)|;
      SomeIn(inFlight, v);
      var u :| u in inFlight && u / WINDOW_SIZE % WINDOWS == v;
      assert Masked(w, u / WINDOW_SIZE % WINDOWS, wraps);
    }
    if u :| u in inFlight && Masked(w, u / WINDOW_SIZE % WINDOWS, wraps) {
      var v: InFlight.Window := u / WINDOW_SIZE % WINDOWS;
      SomeIn(inFlight, v);
      assert InFlight.Unacknowledged(sent, outgoing, c, v) == |InThat(inFlight, v)|;
    }
  }

  /** A first sending adds its number. */
  lemma MatchesSent(sent: seq<InFlight.Outgoing>, outgoing: seq<InFlight.Outgoing>, now: InFlight.Time,
                    roundTrip: InFlight.Time, t: nat, inFlight: set<nat>)
    requires outgoing != [] && outgoing[0].sendAttempts == 0 && outgoing[0].sequence == t % SEQUENCE_SPACE
    requires Matches(sent, outgoing, outgoing[0].channel, inFlight) && t !in inFlight
    ensures Matches(sent + [InFlight.Stamped(outgoing[0], now, roundTrip)], outgoing[1..], outgoing[0].channel,
                    inFlight + {t})
  {
    hide InFlight.Unacknowledged, InThat, InFlight.Stamped;
    var o, c := outgoing[0], outgoing[0].channel;
    forall v: InFlight.Window
      ensures InFlight.Unacknowledged(sent + [InFlight.Stamped(o, now, roundTrip)], outgoing[1..], c, v) ==
        |InThat(inFlight + {t}, v)|
    {
      assert InFlight.Unacknowledged(sent, outgoing, c, v) == |InThat(inFlight, v)|;
      WindowIs(t);
      OneMoreIn(inFlight, t, v);
      OneMoreSent(sent, outgoing, now, roundTrip, c, v);
    }
  }

  lemma OneMoreIn(inFlight: set<nat>, t: nat, v: nat)
    requires t !in inFlight
    ensures |InThat(inFlight + {t}, v)| == |InThat(inFlight, v)| + if t / WINDOW_SIZE % WINDOWS == v then 1 else 0
  {
    if t / WINDOW_SIZE % WINDOWS == v {
      assert InThat(inFlight + {t}, v) == InThat(inFlight, v) + {t} && t !in InThat(inFlight, v);
    } else {
      assert InThat(inFlight + {t}, v) == InThat(inFlight, v);
    }
  }

  lemma OneMoreSent(sent: seq<InFlight.Outgoing>, outgoing: seq<InFlight.Outgoing>, now: InFlight.Time,
                    roundTrip: InFlight.Time, c: nat, v: InFlight.Window)
    requires outgoing != []
    ensures var o := outgoing[0];
      InFlight.Unacknowledged(sent + [InFlight.Stamped(o, now, roundTrip)], outgoing[1..], c, v) ==
        InFlight.Unacknowledged(sent, outgoing, c, v) +
          if o.sendAttempts == 0 && o.channel == c && InFlight.WindowOf(o.sequence) == v then 1 else 0
  {
    hide InFlight.Count;
    var o, o' := outgoing[0], InFlight.Stamped(outgoing[0], now, roundTrip);
    assert outgoing == [o] + outgoing[1..];
    InFlight.CountSplit(sent, [o'], c, v);
    InFlight.CountSplit([o], outgoing[1..], c, v);
    InFlight.CountOne(o, c, v);
    InFlight.CountOne(o', c, v);
  }

  /** Sending again, or on another channel, adds none, and neither does anything whose time is up. */
  lemma MatchesSentAgain(sent: seq<InFlight.Outgoing>, outgoing: seq<InFlight.Outgoing>, now: InFlight.Time,
                         roundTrip: InFlight.Time, c: nat, inFlight: set<nat>)
    requires outgoing != [] && (outgoing[0].sendAttempts > 0 || outgoing[0].channel != c)
    requires Matches(sent, outgoing, c, inFlight)
    ensures Matches(sent + [InFlight.Stamped(outgoing[0], now, roundTrip)], outgoing[1..], c, inFlight)
  {
    hide InFlight.Unacknowledged, InThat, InFlight.Stamped;
    forall v: InFlight.Window
      ensures InFlight.Unacknowledged(sent + [InFlight.Stamped(outgoing[0], now, roundTrip)], outgoing[1..], c, v) ==
        |InThat(inFlight, v)|
    {
      assert InFlight.Unacknowledged(sent, outgoing, c, v) == |InThat(inFlight, v)|;
      OneMoreSent(sent, outgoing, now, roundTrip, c, v);
    }
  }

  lemma MatchesTimeout(sent: seq<InFlight.Outgoing>, outgoing: seq<InFlight.Outgoing>, now: InFlight.Time, k: nat,
                       c: nat, inFlight: set<nat>)
    requires k <= |sent| && Matches(sent, outgoing, c, inFlight)
    ensures Matches(InFlight.StillInTime(sent[..k], now) + sent[k..], InFlight.TimedOut(sent[..k], now) + outgoing, c,
                    inFlight)
  {
    hide InFlight.Count, InThat, InFlight.StillInTime, InFlight.TimedOut;
    var stays, goes := InFlight.StillInTime(sent[..k], now), InFlight.TimedOut(sent[..k], now);
    forall v: InFlight.Window
      ensures InFlight.Unacknowledged(stays + sent[k..], goes + outgoing, c, v) == |InThat(inFlight, v)|
    {
      assert InFlight.Unacknowledged(sent, outgoing, c, v) == |InThat(inFlight, v)|;
      assert sent == sent[..k] + sent[k..];
      InFlight.CountSplit(sent[..k], sent[k..], c, v);
      InFlight.CountSplit(stays, sent[k..], c, v);
      InFlight.CountSplit(goes, outgoing, c, v);
      CountParts(sent[..k], now, c, v);
    }
  }

  lemma {:induction false} CountParts(cs: seq<InFlight.Outgoing>, now: InFlight.Time, c: nat, v: InFlight.Window)
    ensures InFlight.Count(InFlight.StillInTime(cs, now), c, v) + InFlight.Count(InFlight.TimedOut(cs, now), c, v) ==
      InFlight.Count(cs, c, v)
  {
    hide InFlight.InTime;
    if cs != [] {
      var rest, o := cs[..|cs| - 1], cs[|cs| - 1];
      CountParts(rest, now, c, v);
      InFlight.CountSplit(InFlight.StillInTime(rest, now), if InFlight.InTime(o, now) then [o] else [], c, v);
      InFlight.CountSplit(InFlight.TimedOut(rest, now), if InFlight.InTime(o, now) then [] else [InFlight.Again(o)],
                          c, v);
      InFlight.CountOne(o, c, v);
      InFlight.CountOne(InFlight.Again(o), c, v);
    }
  }

  /** And an acknowledgement takes its number out. */
  lemma MatchesTaken(sent: seq<InFlight.Outgoing>, outgoing: seq<InFlight.Outgoing>, sent': seq<InFlight.Outgoing>,
                     outgoing': seq<InFlight.Outgoing>, c: nat, t: nat, o: InFlight.Outgoing, inFlight: set<nat>)
    requires Matches(sent, outgoing, c, inFlight) && t in inFlight && o.sendAttempts >= 1
    requires
      || (InFlight.FirstTaken(sent, sent', (t % SEQUENCE_SPACE, c), o) && outgoing' == outgoing)
      || (InFlight.FirstTaken(outgoing, outgoing', (t % SEQUENCE_SPACE, c), o) && sent' == sent)
    ensures Matches(sent', outgoing', c, inFlight - {t})
  {
    hide InFlight.Count, InThat;
    WindowIs(t);
    forall v: InFlight.Window
      ensures InFlight.Unacknowledged(sent', outgoing', c, v) == |InThat(inFlight - {t}, v)|
    {
      assert InFlight.Unacknowledged(sent, outgoing, c, v) == |InThat(inFlight, v)|;
      OneMoreIn(inFlight - {t}, t, v);
      assert inFlight - {t} + {t} == inFlight;
      if InFlight.FirstTaken(sent, sent', (t % SEQUENCE_SPACE, c), o) && outgoing' == outgoing {
        var i :| 0 <= i < |sent| && sent' == InFlight.Without(sent, i) && o == sent[i];
        InFlight.WithoutCounts(sent, i, c, v);
      } else {
        var i :| 0 <= i < |outgoing| && outgoing' == InFlight.Without(outgoing, i) && o == outgoing[i];
        InFlight.WithoutCounts(outgoing, i, c, v);
      }
    }
  }
}
