/** Which peers a host still has something to report of (enet/protocol.c, enet/peer.c): no event is lost. */
module DispatchQueue {
  /** ENetPeerState, in its order. */
  datatype State =
    | Disconnected | Connecting | AcknowledgingConnect | ConnectionPending | ConnectionSucceeded
    | Connected | DisconnectLater | Disconnecting | AcknowledgingDisconnect | Zombie

  /** A peer, with the packets it has received and not handed over. */
  datatype Peer = Peer(state: State, needsDispatch: bool, dispatched: seq<nat>)

  datatype Event = None | Connect(peer: nat) | Disconnect(peer: nat) | Receive(peer: nat, packet: nat)

  /** States before a connection: nothing can have been received. */
  predicate Early(s: State) {
    s.Disconnected? || s.Connecting? || s.AcknowledgingConnect? || s.ConnectionPending? || s.ConnectionSucceeded?
  }

  /** A peer of which there is something to report. */
  ghost predicate Due(p: Peer) {
    p.state.ConnectionPending? || p.state.ConnectionSucceeded? || p.state.Zombie?
      || (p.state.Connected? && p.dispatched != [])
  }

  ghost predicate PeerOk(p: Peer) {
    (Due(p) ==> p.needsDispatch) && (Early(p.state) ==> p.dispatched == [])
  }

  ghost predicate Distinct(q: seq<nat>) {
    forall i, j :: 0 <= i < j < |q| ==> q[i] != q[j]
  }

  ghost predicate InRange(ps: seq<Peer>, q: seq<nat>) {
    forall k :: 0 <= k < |q| ==> q[k] < |ps|
  }

  /** The queue holds exactly the peers that need dispatch, each once; nothing due is missing. */
  ghost predicate HostOk(ps: seq<Peer>, q: seq<nat>) {
    && Distinct(q) && InRange(ps, q)
    && (forall i {:trigger ps[i]} :: 0 <= i < |ps| ==> ps[i].needsDispatch == (i in q) && PeerOk(ps[i]))
  }

  // What dispatching does

  /** The event of a peer that is due. */
  ghost function EventOf(p: Peer, i: nat): Event
    requires Due(p)
  {
    if p.state.Zombie? then Disconnect(i)
    else if p.state.Connected? then Event.Receive(i, p.dispatched[0])
    else Connect(i)
  }

  /** What a due peer becomes when its event is reported. */
  ghost function Reported(p: Peer): Peer
    requires Due(p)
  {
    if p.state.Zombie? then Peer(Disconnected, false, [])
    else if p.state.Connected? then p.(dispatched := p.dispatched[1..], needsDispatch := |p.dispatched| > 1)
    else p.(state := Connected, needsDispatch := false)
  }

  ghost function Quiet(p: Peer): Peer {
    p.(needsDispatch := false)
  }

  /** One call: peers with nothing to report leave the queue until one is due; with more to report it
      goes to the end. */
  ghost function Dispatch(ps: seq<Peer>, q: seq<nat>): (r: (seq<Peer>, seq<nat>, Event))
    requires InRange(ps, q)
    decreases |q|
  {
    if q == [] then (ps, q, None)
    else
      var i := q[0];
      if !Due(ps[i]) then Dispatch(ps[i := Quiet(ps[i])], q[1..])
      else (ps[i := Reported(ps[i])], q[1..] + (if Reported(ps[i]).needsDispatch then [i] else []), EventOf(ps[i], i))
  }

  lemma PopKeeps(ps: seq<Peer>, q: seq<nat>)
    requires HostOk(ps, q) && q != [] && !Due(ps[q[0]])
    ensures HostOk(ps[q[0] := Quiet(ps[q[0]])], q[1..])
  {
    var i, ps', q' := q[0], ps[q[0] := Quiet(ps[q[0]])], q[1..];
    assert q == [i] + q';
    forall k | 0 <= k < |ps'| ensures ps'[k].needsDispatch == (k in q') && PeerOk(ps'[k]) {
      assert ps[k].needsDispatch == (k in q) && PeerOk(ps[k]);
    }
  }

  lemma ReportKeeps(ps: seq<Peer>, q: seq<nat>)
    requires HostOk(ps, q) && q != [] && Due(ps[q[0]])
    ensures var p := Reported(ps[q[0]]); HostOk(ps[q[0] := p], q[1..] + if p.needsDispatch then [q[0]] else [])
  {
    var i, p := q[0], Reported(ps[q[0]]);
    var ps', q' := ps[i := p], q[1..] + if p.needsDispatch then [i] else [];
    assert q == [i] + q[1..];
    forall k | 0 <= k < |ps'| ensures ps'[k].needsDispatch == (k in q') && PeerOk(ps'[k]) {
      assert ps[k].needsDispatch == (k in q) && PeerOk(ps[k]);
    }
  }

  lemma {:induction false} DispatchKeeps(ps: seq<Peer>, q: seq<nat>)
    requires HostOk(ps, q)
    ensures var (ps', q', event) := Dispatch(ps, q); HostOk(ps', q')
    decreases |q|
  {
    hide HostOk, Distinct;
    HostRange(ps, q);
    if q != [] {
      if Due(ps[q[0]]) {
        ReportKeeps(ps, q);
      } else {
        PopKeeps(ps, q);
        DispatchKeeps(ps[q[0] := Quiet(ps[q[0]])], q[1..]);
      }
    }
  }

  lemma HostRange(ps: seq<Peer>, q: seq<nat>)
    requires HostOk(ps, q)
    ensures InRange(ps, q)
  {
  }

  /** The events of a number of calls one after the other. */
  ghost function Events(ps: seq<Peer>, q: seq<nat>, n: nat): (r: seq<Event>)
    requires HostOk(ps, q)
    ensures |r| == n
    decreases n
  {
    if n == 0 then []
    else
      DispatchKeeps(ps, q);
      var (ps', q', event) := Dispatch(ps, q);
      [event] + Events(ps', q', n - 1)
  }

  lemma {:induction false} EventsGrow(ps: seq<Peer>, q: seq<nat>, m: nat, n: nat)
    requires HostOk(ps, q) && m <= n
    ensures Events(ps, q, m) <= Events(ps, q, n)
    decreases m
  {
    hide HostOk, Dispatch;
    if m > 0 {
      DispatchKeeps(ps, q);
      HostRange(ps, q);
      var (ps', q', event) := Dispatch(ps, q);
      EventsGrow(ps', q', m - 1, n - 1);
    }
  }

  lemma DispatchPops(ps: seq<Peer>, q: seq<nat>)
    requires HostOk(ps, q) && q != [] && !Due(ps[q[0]])
    ensures HostOk(ps[q[0] := Quiet(ps[q[0]])], q[1..])
    ensures forall n: nat :: n > 0 ==> Events(ps, q, n) == Events(ps[q[0] := Quiet(ps[q[0]])], q[1..], n)
  {
    hide HostOk;
    HostRange(ps, q);
    PopKeeps(ps, q);
    HostRange(ps[q[0] := Quiet(ps[q[0]])], q[1..]);
  }

  /** Everything a host has to report comes: if nothing else happens, a peer that is due and has j peers
      before it in the queue is reported by one of the next j + 1 calls. */
  lemma {:induction false} ReportedInTurn(ps: seq<Peer>, q: seq<nat>, j: nat)
    requires HostOk(ps, q) && j < |q| && q[j] < |ps| && Due(ps[q[j]])
    ensures EventOf(ps[q[j]], q[j]) in Events(ps, q, j + 1)
    decreases j
  {
    hide HostOk;
    HostRange(ps, q);
    if j == 0 {
      assert Events(ps, q, 1)[0] == EventOf(ps[q[0]], q[0]);
    } else {
      NotFirst(ps, q, j);
      if Due(ps[q[0]]) {
        ReportKeeps(ps, q);
        var p := Reported(ps[q[0]]);
        var ps', q' := ps[q[0] := p], q[1..] + if p.needsDispatch then [q[0]] else [];
        ReportedInTurn(ps', q', j - 1);
        assert Events(ps, q, j + 1) == [EventOf(ps[q[0]], q[0])] + Events(ps', q', j);
      } else {
        DispatchPops(ps, q);
        var ps', q' := ps[q[0] := Quiet(ps[q[0]])], q[1..];
        ReportedInTurn(ps', q', j - 1);
        EventsGrow(ps', q', j, j + 1);
      }
    }
  }

  lemma NotFirst(ps: seq<Peer>, q: seq<nat>, j: nat)
    requires HostOk(ps, q) && 0 < j < |q|
    ensures q[j] != q[0]
  {
  }

  lemma DueIsQueued(ps: seq<Peer>, q: seq<nat>, i: nat)
    requires HostOk(ps, q) && i < |ps| && Due(ps[i])
    ensures i in q && |q| <= |ps|
  {
    assert PeerOk(ps[i]);
    DistinctBounded(q, |ps|);
  }

  /** Nothing is lost: whatever is due at a peer is reported in no more calls than there are peers. */
  lemma NoLostWakeup(ps: seq<Peer>, q: seq<nat>, i: nat)
    requires HostOk(ps, q) && i < |ps| && Due(ps[i])
    ensures EventOf(ps[i], i) in Events(ps, q, |q|) && |q| <= |ps|
  {
    hide HostOk, Events, EventOf;
    DueIsQueued(ps, q, i);
    var j :| 0 <= j < |q| && q[j] == i;
    ReportedInTurn(ps, q, j);
    EventsGrow(ps, q, j + 1, |q|);
  }

  /** What an event says of its peer, and that a call does nothing to the states and packets of the others. */
  ghost predicate Tells(ps: seq<Peer>, ps': seq<Peer>, event: Event) {
    && |ps'| == |ps|
    && (forall k :: 0 <= k < |ps| && (event.None? || k != event.peer) ==>
          ps'[k].state == ps[k].state && ps'[k].dispatched == ps[k].dispatched)
    && (!event.None? ==> event.peer < |ps|)
    && match event
       case None => true
       case Connect(i) =>
         && (ps[i].state.ConnectionPending? || ps[i].state.ConnectionSucceeded?)
         && ps'[i] == Peer(Connected, false, ps[i].dispatched)
       case Disconnect(i) => ps[i].state.Zombie? && ps'[i] == Peer(Disconnected, false, [])
       case Receive(i, packet) =>
         && ps[i].state.Connected? && ps'[i].state.Connected?
         && ps[i].dispatched == [packet] + ps'[i].dispatched && (ps'[i].needsDispatch <==> ps'[i].dispatched != [])
  }

  lemma {:induction false} DispatchTells(ps: seq<Peer>, q: seq<nat>)
    requires HostOk(ps, q)
    ensures var (ps', q', event) := Dispatch(ps, q); Tells(ps, ps', event)
    decreases |q|
  {
    hide HostOk;
    HostRange(ps, q);
    if q != [] && !Due(ps[q[0]]) {
      PopKeeps(ps, q);
      var ps1 := ps[q[0] := Quiet(ps[q[0]])];
      assert forall k :: 0 <= k < |ps| ==> ps1[k].state == ps[k].state && ps1[k].dispatched == ps[k].dispatched;
      HostRange(ps1, q[1..]);
      DispatchTells(ps1, q[1..]);
      var (ps', q', event) := Dispatch(ps1, q[1..]);
      assert Dispatch(ps, q) == (ps', q', event);
    }
  }

  /** The host after a number of calls. */
  ghost function After(ps: seq<Peer>, q: seq<nat>, n: nat): (r: (seq<Peer>, seq<nat>))
    requires HostOk(ps, q)
    ensures HostOk(r.0, r.1)
    decreases n
  {
    if n == 0 then (ps, q)
    else
      DispatchKeeps(ps, q);
      var (ps', q', event) := Dispatch(ps, q);
      After(ps', q', n - 1)
  }

  /** The packets of peer i among a list of events. */
  function PacketsOf(events: seq<Event>, i: nat): seq<nat> {
    if events == [] then []
    else (if events[0].Receive? && events[0].peer == i then [events[0].packet] else []) + PacketsOf(events[1..], i)
  }

  /** What one call does to the packets of a peer: the first is handed over, or all stay. */
  lemma {:induction false} DispatchConserves(ps: seq<Peer>, q: seq<nat>, i: nat)
    requires HostOk(ps, q) && i < |ps| && !ps[i].state.Zombie?
    ensures var (ps', q', event) := Dispatch(ps, q);
      && |ps'| == |ps| && |q'| <= |q| && !ps'[i].state.Zombie?
      && (ps[i].state.Connected? ==> ps'[i].state.Connected?)
      && PacketsOf([event], i) + ps'[i].dispatched == ps[i].dispatched
    decreases |q|
  {
    hide HostOk;
    HostRange(ps, q);
    if q != [] {
      if Due(ps[q[0]]) {
        EarlyIsEmpty(ps, q, q[0]);
        assert [EventOf(ps[q[0]], q[0])][1..] == [];
      } else {
        PopKeeps(ps, q);
        DispatchConserves(ps[q[0] := Quiet(ps[q[0]])], q[1..], i);
      }
    } else {
      assert [None][1..] == [];
    }
  }

  lemma EarlyIsEmpty(ps: seq<Peer>, q: seq<nat>, i: nat)
    requires HostOk(ps, q) && i < |ps|
    ensures Early(ps[i].state) ==> ps[i].dispatched == []
  {
    assert PeerOk(ps[i]);
  }

  lemma PacketsSplit(e: Event, rest: seq<Event>, i: nat)
    ensures PacketsOf([e] + rest, i) == PacketsOf([e], i) + PacketsOf(rest, i)
  {
    assert ([e] + rest)[1..] == rest && [e][1..] == [];
  }

  /** No packet is lost, repeated or overtaken: what a number of calls reports of a peer's packets, and what
      the peer has left afterwards, are together the packets it had. */
  lemma {:induction false} PacketsConserved(ps: seq<Peer>, q: seq<nat>, i: nat, n: nat)
    requires HostOk(ps, q) && i < |ps| && !ps[i].state.Zombie?
    ensures var (ps', q') := After(ps, q, n);
      && |ps'| == |ps| && |q'| <= |q| && !ps'[i].state.Zombie?
      && (ps[i].state.Connected? ==> ps'[i].state.Connected?)
      && PacketsOf(Events(ps, q, n), i) + ps'[i].dispatched == ps[i].dispatched
    decreases n
  {
    hide HostOk, Dispatch;
    if n > 0 {
      DispatchKeeps(ps, q);
      HostRange(ps, q);
      DispatchConserves(ps, q, i);
      var (ps', q', event) := Dispatch(ps, q);
      PacketsConserved(ps', q', i, n - 1);
      PacketsSplit(event, Events(ps', q', n - 1), i);
      Associative(PacketsOf([event], i), PacketsOf(Events(ps', q', n - 1), i), After(ps, q, n).0[i].dispatched);
    }
  }

  lemma Associative(a: seq<nat>, b: seq<nat>, c: seq<nat>)
    ensures a + b + c == a + (b + c)
  {
  }

  lemma {:induction false} CallsCompose(ps: seq<Peer>, q: seq<nat>, m: nat, n: nat)
    requires HostOk(ps, q)
    ensures var (ps', q') := After(ps, q, m);
      && Events(ps, q, m + n) == Events(ps, q, m) + Events(ps', q', n)
      && After(ps, q, m + n) == After(ps', q', n)
    decreases m
  {
    hide HostOk, Dispatch;
    if m > 0 {
      DispatchKeeps(ps, q);
      HostRange(ps, q);
      var (ps', q', event) := Dispatch(ps, q);
      CallsCompose(ps', q', m - 1, n);
      var (ps'', q'') := After(ps', q', m - 1);
      assert [event] + Events(ps', q', m - 1) + Events(ps'', q'', n) ==
        [event] + (Events(ps', q', m - 1) + Events(ps'', q'', n));
    }
  }

  lemma {:induction false} PacketAmong(events: seq<Event>, i: nat, packet: nat)
    requires Event.Receive(i, packet) in events
    ensures PacketsOf(events, i) != []
  {
    if events[0] != Event.Receive(i, packet) { PacketAmong(events[1..], i, packet); }
  }

  /** As many calls as are queued hand over at least one packet of a connected peer that has some. */
  lemma RoundHandsOver(ps: seq<Peer>, q: seq<nat>, i: nat)
    requires HostOk(ps, q) && i < |ps| && ps[i].state.Connected? && ps[i].dispatched != []
    ensures var (ps', q') := After(ps, q, |q|); i < |ps'| && |ps'[i].dispatched| < |ps[i].dispatched|
  {
    hide HostOk, Events, After;
    NoLostWakeup(ps, q, i);
    PacketAmong(Events(ps, q, |q|), i, ps[i].dispatched[0]);
    PacketsConserved(ps, q, i, |q|);
  }

  /** All packets of a connected peer come: within as many calls as are queued for each of them. */
  lemma {:induction false} AllPacketsCome(ps: seq<Peer>, q: seq<nat>, i: nat, n: nat)
    requires HostOk(ps, q) && i < |ps| && ps[i].state.Connected? && |q| * |ps[i].dispatched| <= n
    ensures PacketsOf(Events(ps, q, n), i) == ps[i].dispatched
    decreases |ps[i].dispatched|
  {
    hide HostOk, Events, After;
    PacketsConserved(ps, q, i, n);
    if ps[i].dispatched != [] {
      var m := |q|;
      RoundHandsOver(ps, q, i);
      PacketsConserved(ps, q, i, m);
      var (ps', q') := After(ps, q, m);
      FewerCalls(|q'|, |ps'[i].dispatched|, m, |ps[i].dispatched|);
      AllPacketsCome(ps', q', i, n - m);
      CallsCompose(ps, q, m, n - m);
      PacketsConserved(ps', q', i, n - m);
      NothingLeft(PacketsOf(Events(ps', q', n - m), i), After(ps', q', n - m).0[i].dispatched, ps'[i].dispatched);
    }
  }

  lemma FewerCalls(q': nat, d': nat, q: nat, d: nat)
    requires q' <= q && d' < d
    ensures q' * d' <= q * d - q
  {
    assert q' * d' <= q * d' <= q * (d - 1);
  }

  lemma NothingLeft(a: seq<nat>, b: seq<nat>, c: seq<nat>)
    requires a + b == c && a == c
    ensures b == []
  {
    assert |a + b| == |a|;
  }

  predicate About(e: Event, i: nat) {
    !e.None? && e.peer == i
  }

  /** Nothing else is reported: of a peer that has nothing due no call tells anything. So the packets a peer
      in DisconnectLater has received stay where they are. */
  lemma {:induction false} NothingElse(ps: seq<Peer>, q: seq<nat>, i: nat, n: nat)
    requires HostOk(ps, q) && i < |ps| && !Due(ps[i])
    ensures forall k :: 0 <= k < n ==> !About(Events(ps, q, n)[k], i)
    decreases n, |q|
  {
    hide HostOk;
    HostRange(ps, q);
    if n > 0 {
      if q == [] {
        NothingElse(ps, q, i, n - 1);
      } else if Due(ps[q[0]]) {
        ReportKeeps(ps, q);
        var p := Reported(ps[q[0]]);
        NothingElse(ps[q[0] := p], q[1..] + if p.needsDispatch then [q[0]] else [], i, n - 1);
      } else {
        DispatchPops(ps, q);
        NothingElse(ps[q[0] := Quiet(ps[q[0]])], q[1..], i, n);
      }
    }
  }

  /** Distinct numbers below n are no more than n. */
  lemma {:induction false} DistinctBounded(q: seq<nat>, n: nat)
    requires Distinct(q) && forall k :: 0 <= k < |q| ==> q[k] < n
    ensures |q| <= n
  {
    if n > 0 {
      if n - 1 in q {
        var j :| 0 <= j < |q| && q[j] == n - 1;
        var rest := q[..j] + q[j + 1..];
        forall k | 0 <= k < |rest| ensures rest[k] < n - 1 && rest[k] == q[if k < j then k else k + 1] {
          assert q[if k < j then k else k + 1] != q[j];
        }
        assert Distinct(rest);
        DistinctBounded(rest, n - 1);
      } else {
        DistinctBounded(q, n - 1);
      }
    }
  }

  // The host

  class Host {
    const peers: array<Peer>
    var dispatchQueue: seq<nat>
    var recalculateBandwidthLimits: bool

    ghost predicate Valid()
      reads this, peers
    {
      HostOk(peers[..], dispatchQueue)
    }

    /** enet_host_create, after its peers were cleared and reset. */
    constructor (peerCount: nat)
      ensures Valid() && peers.Length == peerCount && dispatchQueue == [] && !recalculateBandwidthLimits
      ensures forall i :: 0 <= i < peerCount ==> peers[i] == Peer(Disconnected, false, [])
    {
      peers := new Peer[peerCount](i => Peer(Disconnected, false, []));
      dispatchQueue := [];
      recalculateBandwidthLimits := false;
    }

    /** Changes a peer's state and packets, and puts it on the queue unless it is there. */
    method Enqueue(i: nat, state: State, dispatched: seq<nat>)
      requires Valid() && i < peers.Length && (Early(state) ==> dispatched == [])
      modifies this`dispatchQueue, peers
      ensures Valid() && peers[..] == old(peers[..])[i := Peer(state, true, dispatched)]
      ensures dispatchQueue == old(dispatchQueue) + if old(peers[i].needsDispatch) then [] else [i]
    {
      ghost var ps := peers[..];
      assert PeerOk(ps[i]);
      var p := peers[i];
      if !p.needsDispatch {
        dispatchQueue := dispatchQueue + [i];
      }
      peers[i] := Peer(state, true, dispatched);
      assert peers[..] == ps[i := Peer(state, true, dispatched)];
      Updated(ps, old(dispatchQueue), peers[..], dispatchQueue, i);
    }

    /** enet_protocol_dispatch_state */
    method DispatchState(i: nat, state: State)
      requires Valid() && i < peers.Length && (Early(state) ==> peers[i].dispatched == [])
      modifies this`dispatchQueue, peers
      ensures Valid() && peers[..] == old(peers[..])[i := Peer(state, true, old(peers[i].dispatched))]
      ensures dispatchQueue == old(dispatchQueue) + if old(peers[i].needsDispatch) then [] else [i]
    {
      Enqueue(i, state, peers[i].dispatched);
    }

    /** enet_peer_dispatch_incoming_reliable_commands and its unreliable twin, for the packets they move. */
    method Deliver(i: nat, packets: seq<nat>)
      requires Valid() && i < peers.Length && (peers[i].state.Connected? || peers[i].state.DisconnectLater?)
      modifies this`dispatchQueue, peers
      ensures Valid()
      ensures packets == [] ==> peers[..] == old(peers[..]) && dispatchQueue == old(dispatchQueue)
      ensures packets != [] ==>
        peers[..] == old(peers[..])[i := Peer(old(peers[i].state), true, old(peers[i].dispatched) + packets)]
      ensures packets != [] ==> dispatchQueue == old(dispatchQueue) + if old(peers[i].needsDispatch) then [] else [i]
    {
      if packets == [] { return; }
      Enqueue(i, peers[i].state, peers[i].dispatched + packets);
    }

    /** enet_peer_receive, as an application may also call it. */
    method ReceivePacket(i: nat) returns (packet: seq<nat>)
      requires Valid() && i < peers.Length
      modifies peers
      ensures Valid() && dispatchQueue == old(dispatchQueue)
      ensures packet + peers[i].dispatched == old(peers[i].dispatched)
      ensures |packet| == if old(peers[i].dispatched) == [] then 0 else 1
      ensures peers[..] == old(peers[..])[i := old(peers[i]).(dispatched := peers[i].dispatched)]
    {
      var p := peers[i];
      ghost var ps := peers[..];
      assert PeerOk(ps[i]);
      if p.dispatched == [] {
        assert peers[..] == ps[i := p];
        return [];
      }
      packet := p.dispatched[..1];
      peers[i] := p.(dispatched := p.dispatched[1..]);
      assert peers[..] == ps[i := p.(dispatched := p.dispatched[1..])];
      Updated(ps, dispatchQueue, peers[..], dispatchQueue, i);
    }

    /** enet_peer_reset_queues, for a peer that is on its way out or was never in. */
    method ResetQueues(i: nat)
      requires Valid() && i < peers.Length
      modifies this`dispatchQueue, peers
      ensures peers[..] == old(peers[..])[i := Peer(old(peers[i].state), false, [])]
      ensures dispatchQueue == Without(old(dispatchQueue), i)
      ensures forall state :: !Due(Peer(state, false, [])) ==>
        HostOk(peers[..][i := Peer(state, false, [])], dispatchQueue)
    {
      ghost var ps := peers[..];
      assert PeerOk(ps[i]);
      var p := peers[i];
      WithoutFacts(dispatchQueue, i);
      if p.needsDispatch {
        dispatchQueue := Without(dispatchQueue, i);
      }
      peers[i] := Peer(p.state, false, []);
      assert peers[..] == ps[i := Peer(p.state, false, [])];
      forall state | !Due(Peer(state, false, []))
        ensures HostOk(peers[..][i := Peer(state, false, [])], dispatchQueue) {
        Updated(ps, old(dispatchQueue), peers[..][i := Peer(state, false, [])], dispatchQueue, i);
      }
    }

    /** enet_peer_reset */
    method Reset(i: nat)
      requires Valid() && i < peers.Length
      modifies this`dispatchQueue, peers
      ensures Valid() && peers[..] == old(peers[..])[i := Peer(Disconnected, false, [])]
      ensures dispatchQueue == Without(old(dispatchQueue), i)
    {
      ResetTo(i, Disconnected);
    }

    /** The queues of a peer are emptied, and it goes to a state in which nothing is due. */
    method ResetTo(i: nat, state: State)
      requires Valid() && i < peers.Length && !Due(Peer(state, false, []))
      modifies this`dispatchQueue, peers
      ensures Valid() && peers[..] == old(peers[..])[i := Peer(state, false, [])]
      ensures dispatchQueue == Without(old(dispatchQueue), i)
    {
      ResetQueues(i);
      ghost var ps := peers[..];
      peers[i] := Peer(state, false, []);
      assert peers[..] == ps[i := Peer(state, false, [])];
    }

    /** enet_host_connect and enet_protocol_handle_connect take a disconnected peer. */
    method Begin(i: nat, outgoing: bool)
      requires Valid() && i < peers.Length && peers[i].state.Disconnected?
      modifies peers
      ensures Valid() && dispatchQueue == old(dispatchQueue)
      ensures peers[..] ==
        old(peers[..])[i := old(peers[i]).(state := if outgoing then Connecting else AcknowledgingConnect)]
    {
      ghost var ps := peers[..];
      assert PeerOk(ps[i]);
      var p := peers[i].(state := if outgoing then Connecting else AcknowledgingConnect);
      peers[i] := p;
      assert peers[..] == ps[i := p];
      Updated(ps, dispatchQueue, peers[..], dispatchQueue, i);
    }

    /** enet_protocol_notify_connect: the event is given to the caller that asks for one, and queued for
        the next that does otherwise. */
    method NotifyConnect(i: nat, wanted: bool) returns (event: Event)
      requires Valid() && i < peers.Length && (peers[i].state.Connecting? || peers[i].state.AcknowledgingConnect?)
      modifies this, peers
      ensures Valid() && recalculateBandwidthLimits && event == if wanted then Connect(i) else None
      ensures wanted ==>
        peers[..] == old(peers[..])[i := old(peers[i]).(state := Connected)] && dispatchQueue == old(dispatchQueue)
      ensures !wanted ==> Due(peers[i]) && EventOf(peers[i], i) == Connect(i) && i in dispatchQueue
      ensures !wanted ==> dispatchQueue == old(dispatchQueue) + if old(peers[i].needsDispatch) then [] else [i]
      ensures !wanted ==> forall k :: 0 <= k < peers.Length && k != i ==> peers[k] == old(peers[k])
    {
      ghost var ps := peers[..];
      assert PeerOk(ps[i]);
      recalculateBandwidthLimits := true;
      if wanted {
        peers[i] := peers[i].(state := Connected);
        assert peers[..] == ps[i := ps[i].(state := Connected)];
        Updated(ps, dispatchQueue, peers[..], dispatchQueue, i);
        return Connect(i);
      }
      DispatchState(i, if peers[i].state.Connecting? then ConnectionSucceeded else ConnectionPending);
      assert forall k :: 0 <= k < peers.Length ==> peers[k] == peers[..][k];
      assert peers[..][i].needsDispatch == (i in dispatchQueue);
      return None;
    }

    /** enet_protocol_notify_disconnect */
    method NotifyDisconnect(i: nat, wanted: bool) returns (event: Event)
      requires Valid() && i < peers.Length
      modifies this, peers
      ensures Valid()
      ensures var s := old(peers[i].state);
        var early := s.Disconnected? || s.AcknowledgingConnect? || s.ConnectionPending?;
        if early || wanted then
          && event == (if early then None else Disconnect(i))
          && peers[i] == Peer(Disconnected, false, []) && dispatchQueue == Without(old(dispatchQueue), i)
        else
          && event == None && peers[i] == Peer(Zombie, true, old(peers[i].dispatched)) && i in dispatchQueue
          && dispatchQueue == old(dispatchQueue) + if old(peers[i].needsDispatch) then [] else [i]
      ensures var s := old(peers[i].state);
        var connecting := s.Disconnected? || s.Connecting? || s.AcknowledgingConnect?;
        recalculateBandwidthLimits == (old(recalculateBandwidthLimits) || !connecting)
      ensures forall k :: 0 <= k < peers.Length && k != i ==> peers[k] == old(peers[k])
    {
      if !Before(peers[i].state, ConnectionPending) {
        recalculateBandwidthLimits := true;
      }
      event := None;
      if !peers[i].state.Connecting? && Before(peers[i].state, ConnectionSucceeded) {
        Reset(i);
      } else if wanted {
        event := Disconnect(i);
        Reset(i);
      } else {
        DispatchState(i, Zombie);
      }
      assert forall k :: 0 <= k < peers.Length ==> peers[k] == peers[..][k];
      assert peers[..][i].needsDispatch == (i in dispatchQueue);
    }

    /** enet_protocol_handle_disconnect */
    method HandleDisconnect(i: nat, acknowledge: bool)
      requires Valid() && i < peers.Length
      modifies this, peers
      ensures Valid()
      ensures var s := old(peers[i].state);
        var removed := Without(old(dispatchQueue), i);
        if s.Zombie? || s.AcknowledgingDisconnect? then
          peers[i] == old(peers[i]) && dispatchQueue == old(dispatchQueue)
        else if s.ConnectionSucceeded? || ((s.Connected? || s.DisconnectLater?) && !acknowledge) then
          peers[i] == Peer(Zombie, true, []) && dispatchQueue == removed + [i]
        else
          && peers[i] ==
            Peer(if s.Connected? || s.DisconnectLater? then AcknowledgingDisconnect else Disconnected, false, [])
          && dispatchQueue == removed
      ensures recalculateBandwidthLimits == (old(recalculateBandwidthLimits) || old(peers[i].state).ConnectionPending?)
      ensures forall k :: 0 <= k < peers.Length && k != i ==> peers[k] == old(peers[k])
    {
      var s := peers[i].state;
      if s.Zombie? || s.AcknowledgingDisconnect? { return; }
      if s.ConnectionSucceeded? || ((s.Connected? || s.DisconnectLater?) && !acknowledge) {
        ResetTo(i, Disconnecting);  // a state no one sees before the next line
        DispatchState(i, Zombie);
      } else if s.Connected? || s.DisconnectLater? {
        ResetTo(i, AcknowledgingDisconnect);
      } else {
        if s.ConnectionPending? { recalculateBandwidthLimits := true; }
        Reset(i);
      }
      assert forall k :: 0 <= k < peers.Length ==> peers[k] == peers[..][k];
    }

    /** enet_peer_disconnect */
    method DisconnectPeer(i: nat)
      requires Valid() && i < peers.Length
      modifies this`dispatchQueue, peers
      ensures Valid()
      ensures peers[i] == Leaving(old(peers[i]))
      ensures dispatchQueue == if Left(old(peers[i].state)) then old(dispatchQueue) else Without(old(dispatchQueue), i)
      ensures forall k :: 0 <= k < peers.Length && k != i ==> peers[k] == old(peers[k])
    {
      var s := peers[i].state;
      if s.Disconnecting? || s.Disconnected? || s.AcknowledgingDisconnect? || s.Zombie? { return; }
      ResetTo(i, if s.Connected? || s.DisconnectLater? then Disconnecting else Disconnected);
      assert forall k :: 0 <= k < peers.Length ==> peers[k] == peers[..][k];
    }

    /** enet_peer_disconnect_later. What the peer has received and not handed over is not due any more. */
    method DisconnectLaterPeer(i: nat, pending: bool)
      requires Valid() && i < peers.Length
      modifies this`dispatchQueue, peers
      ensures Valid()
      ensures var s := old(peers[i].state);
        if (s.Connected? || s.DisconnectLater?) && pending then
          peers[i] == old(peers[i]).(state := DisconnectLater) && dispatchQueue == old(dispatchQueue)
        else
          && peers[i] == Leaving(old(peers[i]))
          && dispatchQueue == if Left(s) then old(dispatchQueue) else Without(old(dispatchQueue), i)
      ensures forall k :: 0 <= k < peers.Length && k != i ==> peers[k] == old(peers[k])
    {
      if (peers[i].state.Connected? || peers[i].state.DisconnectLater?) && pending {
        ghost var ps := peers[..];
        assert PeerOk(ps[i]);
        peers[i] := peers[i].(state := DisconnectLater);
        assert peers[..] == ps[i := ps[i].(state := DisconnectLater)];
        Updated(ps, dispatchQueue, peers[..], dispatchQueue, i);
      } else {
        DisconnectPeer(i);
      }
    }

    /** enet_protocol_dispatch_incoming_commands */
    method DispatchIncomingCommands() returns (event: Event)
      requires Valid()
      modifies this, peers
      ensures Valid() && (peers[..], dispatchQueue, event) == Dispatch(old(peers[..]), old(dispatchQueue))
      ensures event.None? ==> dispatchQueue == []
      ensures Tells(old(peers[..]), peers[..], event)
      ensures recalculateBandwidthLimits == (old(recalculateBandwidthLimits) || event.Disconnect?)
    {
      hide HostOk, Tells;
      ghost var ps, q := peers[..], dispatchQueue;
      HostRange(ps, q);
      DispatchKeeps(ps, q);
      DispatchTells(ps, q);
      while dispatchQueue != []
        invariant Valid() && InRange(ps, q) && InRange(peers[..], dispatchQueue)
        invariant Dispatch(peers[..], dispatchQueue) == Dispatch(ps, q)
        invariant recalculateBandwidthLimits == old(recalculateBandwidthLimits)
        decreases |dispatchQueue|
      {
        ghost var before, queue := peers[..], dispatchQueue;
        var i := dispatchQueue[0];
        var p := peers[i];
        if Due(p) { ReportKeeps(before, queue); } else { PopKeeps(before, queue); }
        dispatchQueue := dispatchQueue[1..];
        peers[i] := p.(needsDispatch := false);
        assert peers[..] == before[i := Quiet(p)];
        match p.state {
          case ConnectionPending | ConnectionSucceeded =>
            peers[i] := p.(needsDispatch := false, state := Connected);
            assert peers[..] == before[i := Reported(p)] && queue[1..] + [] == queue[1..];
            return Connect(i);
          case Zombie =>
            recalculateBandwidthLimits := true;
            peers[i] := Peer(Disconnected, false, []);
            assert peers[..] == before[i := Reported(p)] && queue[1..] + [] == queue[1..];
            return Disconnect(i);
          case Connected =>
            if p.dispatched != [] {
              var packet, rest := p.dispatched[0], p.dispatched[1..];
              peers[i] := p.(needsDispatch := rest != [], dispatched := rest);
              if rest != [] {
                dispatchQueue := dispatchQueue + [i];
              }
              assert peers[..] == before[i := Reported(p)] && queue[1..] + [] == queue[1..];
              return Event.Receive(i, packet);
            }
          case _ =>
        }
      }
      return None;
    }
  }

  /** The order of the states. */
  function Rank(s: State): nat {
    match s
    case Disconnected => 0
    case Connecting => 1
    case AcknowledgingConnect => 2
    case ConnectionPending => 3
    case ConnectionSucceeded => 4
    case Connected => 5
    case DisconnectLater => 6
    case Disconnecting => 7
    case AcknowledgingDisconnect => 8
    case Zombie => 9
  }

  predicate Before(s: State, t: State) {
    Rank(s) < Rank(t)
  }

  /** A peer that is not or no longer connected. */
  ghost predicate Left(s: State) {
    s.Disconnecting? || s.Disconnected? || s.AcknowledgingDisconnect? || s.Zombie?
  }

  /** A peer the host disconnects: one that was connected must still be told. */
  ghost function Leaving(p: Peer): Peer {
    if Left(p.state) then p
    else Peer(if p.state.Connected? || p.state.DisconnectLater? then Disconnecting else Disconnected, false, [])
  }

  /** A queue without one of its entries. */
  function Without(q: seq<nat>, i: nat): seq<nat> {
    if q == [] then [] else if q[0] == i then q[1..] else [q[0]] + Without(q[1..], i)
  }

  lemma {:induction false} WithoutFacts(q: seq<nat>, i: nat)
    requires Distinct(q)
    ensures Distinct(Without(q, i)) && (i !in q ==> Without(q, i) == q)
    ensures forall k :: k in Without(q, i) <==> k in q && k != i
  {
    if q != [] {
      assert q == [q[0]] + q[1..];
      WithoutFacts(q[1..], i);
      assert forall k :: 0 < k < |q| ==> q[k] != q[0];
      assert q[0] !in q[1..] && q[0] !in Without(q[1..], i);
    }
  }

  /** A change of one peer, with the queue to match it. */
  lemma Updated(ps: seq<Peer>, q: seq<nat>, ps': seq<Peer>, q': seq<nat>, i: nat)
    requires HostOk(ps, q) && i < |ps| == |ps'| && ps' == ps[i := ps'[i]] && PeerOk(ps'[i]) && Distinct(q')
    requires ps'[i].needsDispatch == (i in q') && forall k :: k != i ==> (k in q' <==> k in q)
    ensures HostOk(ps', q')
  {
    forall k | 0 <= k < |ps'| ensures ps'[k].needsDispatch == (k in q') && PeerOk(ps'[k]) {
      assert ps[k].needsDispatch == (k in q) && PeerOk(ps[k]);
    }
    forall k | 0 <= k < |q'| ensures q'[k] < |ps'| {
      assert q'[k] in q';
    }
  }
}
