/** Reference counts of packets (enet/peer.c, enet/protocol.c, enet/host.c): how many queue entries name a
    packet, and when it may go. */
module PacketReferences {
  import opened Division

  /** ENetPacket */
  class Packet {
    var referenceCount: int
    var destroyed: bool

    /** enet_packet_create */
    constructor ()
      ensures referenceCount == 0 && !destroyed
    {
      referenceCount, destroyed := 0, false;
    }
  }

  /** How many entries of a queue name a packet; an entry without a packet is a command of the protocol. */
  function Naming(q: seq<Packet?>, p: Packet): nat {
    if q == [] then 0 else Naming(q[..|q| - 1], p) + if q[|q| - 1] == p then 1 else 0
  }

  function NamingAll(qs: seq<seq<Packet?>>, p: Packet): nat {
    if qs == [] then 0 else NamingAll(qs[..|qs| - 1], p) + Naming(qs[|qs| - 1], p)
  }

  lemma {:induction false} NamingConcat(a: seq<Packet?>, b: seq<Packet?>, p: Packet)
    ensures Naming(a + b, p) == Naming(a, p) + Naming(b, p)
  {
    if b == [] {
      assert a + b == a;
    } else {
      assert (a + b)[..|a + b| - 1] == a + b[..|b| - 1];
      NamingConcat(a, b[..|b| - 1], p);
    }
  }

  /** Taking out one entry, or putting one in. */
  lemma NamingAround(a: seq<Packet?>, e: Packet?, b: seq<Packet?>, p: Packet)
    ensures Naming(a + [e] + b, p) == Naming(a + b, p) + if e == p then 1 else 0
  {
    NamingConcat(a + [e], b, p);
    NamingConcat(a, [e], p);
    NamingConcat(a, b, p);
    assert [e][..0] == [];
  }

  lemma {:induction false} NamingUpdate(qs: seq<seq<Packet?>>, i: nat, q: seq<Packet?>, p: Packet)
    requires i < |qs|
    ensures NamingAll(qs[i := q], p) == NamingAll(qs, p) - Naming(qs[i], p) + Naming(q, p)
  {
    var n := |qs| - 1;
    if i == n {
      assert qs[i := q][..n] == qs[..n];
    } else {
      assert qs[i := q][..n] == qs[..n][i := q];
      NamingUpdate(qs[..n], i, q, p);
    }
  }

  lemma {:induction false} NamedInQueue(q: seq<Packet?>, k: nat, p: Packet)
    requires k < |q| && q[k] == p
    ensures Naming(q, p) > 0
  {
    if k < |q| - 1 { NamedInQueue(q[..|q| - 1], k, p); }
  }

  lemma {:induction false} Named(qs: seq<seq<Packet?>>, i: nat, p: Packet)
    requires i < |qs|
    ensures Naming(qs[i], p) <= NamingAll(qs, p)
  {
    if i < |qs| - 1 { Named(qs[..|qs| - 1], i, p); }
  }

  /** The commands of all peers: every queue a peer or one of its channels has, by number. */
  class Queues {
    var queues: seq<seq<Packet?>>
    ghost var known: set<Packet>

    /** A packet's count is the number of entries that name it, and none names a packet that is gone. */
    ghost predicate Valid()
      reads this, known
    {
      && (forall i, k :: 0 <= i < |queues| && 0 <= k < |queues[i]| && queues[i][k] != null ==> queues[i][k] in known)
      && (forall p :: p in known ==>
        p.referenceCount == NamingAll(queues, p) && (p.destroyed ==> p.referenceCount == 0))
    }

    constructor (count: nat)
      ensures Valid() && |queues| == count && known == {} && forall i :: 0 <= i < count ==> queues[i] == []
    {
      queues := seq(count, i => []);
      known := {};
    }

    /** Every command that names a packet: enet_peer_queue_outgoing_command at the end of a queue, and
        enet_peer_queue_incoming_command at its place. */
    method Insert(i: nat, at: nat, packet: Packet?)
      requires Valid() && i < |queues| && at <= |queues[i]|
      requires packet != null ==> packet in known && !packet.destroyed
      modifies this`queues, if packet == null then {} else {packet}
      ensures Valid()
      ensures queues == old(queues)[i := old(queues)[i][..at] + [packet] + old(queues)[i][at..]]
      ensures packet != null ==> !packet.destroyed && packet.referenceCount == old(packet.referenceCount) + 1
    {
      ghost var q, q' := queues[i], queues[i][..at] + [packet] + queues[i][at..];
      forall p | p in known
        ensures NamingAll(queues[i := q'], p) == NamingAll(queues, p) + if p == packet then 1 else 0 {
        NamingUpdate(queues, i, q', p);
        NamingAround(q[..at], packet, q[at..], p);
        assert q == q[..at] + q[at..];
      }
      queues := queues[i := queues[i][..at] + [packet] + queues[i][at..]];
      if packet != null {
        packet.referenceCount := packet.referenceCount + 1;
      }
    }

    /** A new packet of the application, or of the network. */
    ghost method Adopt(packet: Packet)
      requires Valid() && packet !in known && packet.referenceCount == 0 && !packet.destroyed
      modifies this`known
      ensures Valid() && known == old(known) + {packet}
    {
      NotNamed(queues, packet);
      known := known + {packet};
    }

    /** Takes an entry out of a queue, and gives its reference back without looking at what is left. */
    method TakeOut(i: nat, at: nat) returns (packet: Packet?)
      requires Valid() && i < |queues| && at < |queues[i]|
      modifies this`queues, if queues[i][at] == null then {} else {queues[i][at]}
      ensures Valid() && packet == old(queues[i][at])
      ensures queues == old(queues)[i := old(queues)[i][..at] + old(queues)[i][at + 1..]]
      ensures packet != null ==> packet in known && !packet.destroyed
      ensures packet != null ==> packet.referenceCount == old(packet.referenceCount) - 1 == NamingAll(queues, packet)
    {
      packet := queues[i][at];
      ghost var q, q' := queues[i], queues[i][..at] + queues[i][at + 1..];
      forall p | p in known
        ensures NamingAll(queues[i := q'], p) == NamingAll(queues, p) - if p == packet then 1 else 0 {
        NamingUpdate(queues, i, q', p);
        NamingAround(q[..at], packet, q[at + 1..], p);
        assert q == q[..at] + [packet] + q[at + 1..];
      }
      if packet != null {
        NamedInQueue(q, at, packet);
        Named(queues, i, packet);
        packet.referenceCount := packet.referenceCount - 1;
      }
      queues := queues[i := queues[i][..at] + queues[i][at + 1..]];
    }

    /** The end of an entry, wherever the library lets go of one: an acknowledgement, a drop by the
        throttle, a sent unreliable command, a reset. The packet goes with its last entry. */
    method Release(i: nat, at: nat)
      requires Valid() && i < |queues| && at < |queues[i]|
      modifies this`queues, if queues[i][at] == null then {} else {queues[i][at]}
      ensures Valid()
      ensures queues == old(queues)[i := old(queues)[i][..at] + old(queues)[i][at + 1..]]
      ensures var packet := old(queues[i][at]); packet != null ==>
        (packet.destroyed <==> NamingAll(queues, packet) == 0)
    {
      var packet := TakeOut(i, at);
      if packet != null && packet.referenceCount == 0 {
        packet.destroyed := true;
      }
    }

    /** enet_peer_receive: the packet is the application's now, and still there. */
    method Receive(i: nat) returns (packet: Packet?)
      requires Valid() && i < |queues|
      modifies this`queues, if queues[i] == [] || queues[i][0] == null then {} else {queues[i][0]}
      ensures Valid()
      ensures old(queues[i]) == [] ==> packet == null && queues == old(queues)
      ensures old(queues[i]) != [] ==> packet == old(queues[i][0]) && queues == old(queues)[i := old(queues)[i][1..]]
      ensures packet != null ==> !packet.destroyed && packet.referenceCount == NamingAll(queues, packet)
    {
      if queues[i] == [] { return null; }
      assert queues[i][..0] + queues[i][1..] == queues[i][1..];
      packet := TakeOut(i, 0);
    }

    /** A timeout, a sending, a dispatch: an entry changes queues, and no count changes. */
    method Move(i: nat, at: nat, j: nat, at': nat)
      requires Valid() && i < |queues| && j < |queues| && i != j && at < |queues[i]| && at' <= |queues[j]|
      modifies this`queues
      ensures Valid()
      ensures queues == old(queues)[i := old(queues)[i][..at] + old(queues)[i][at + 1..]]
        [j := old(queues)[j][..at'] + [old(queues)[i][at]] + old(queues)[j][at'..]]
    {
      ghost var qs, e := queues, queues[i][at];
      var from, onto := queues[i][..at] + queues[i][at + 1..], queues[j][..at'] + [queues[i][at]] + queues[j][at'..];
      forall p | p in known ensures NamingAll(qs[i := from][j := onto], p) == NamingAll(qs, p) {
        NamingUpdate(qs, i, from, p);
        NamingUpdate(qs[i := from], j, onto, p);
        NamingAround(qs[i][..at], e, qs[i][at + 1..], p);
        NamingAround(qs[j][..at'], e, qs[j][at'..], p);
        assert qs[i] == qs[i][..at] + [e] + qs[i][at + 1..] && qs[j] == qs[j][..at'] + qs[j][at'..];
      }
      queues := queues[i := from][j := onto];
    }

    /** The first entry of a queue goes; nothing changes for other packets. */
    method ReleaseFirst(i: nat)
      requires Valid() && i < |queues| && queues[i] != []
      modifies this`queues, if queues[i][0] == null then {} else {queues[i][0]}
      ensures Valid() && queues == old(queues)[i := old(queues)[i][1..]]
      ensures forall p :: p in known ==>
        NamingAll(queues, p) == old(NamingAll(queues, p)) - if p == old(queues[i][0]) then 1 else 0
      ensures forall p :: p in known && p == old(queues[i][0]) ==> (p.destroyed <==> NamingAll(queues, p) == 0)
    {
      hide NamingAll, Naming;
      ghost var e, q, qs := queues[i][0], queues[i][1..], queues;
      assert queues[i][..0] + queues[i][1..] == q;
      Release(i, 0);
      forall p | p in known ensures NamingAll(queues, p) == NamingAll(qs, p) - if p == e then 1 else 0 {
        NamingUpdate(qs, i, q, p);
        NamingAround([], e, q, p);
        assert qs[i] == [] + [e] + q && [] + q == q;
      }
    }

    /** enet_peer_reset_outgoing_commands and enet_peer_reset_incoming_commands: afterwards a packet that
        was named is gone exactly if no other queue names it. */
    method ResetQueue(i: nat)
      requires Valid() && i < |queues|
      modifies this`queues, known
      ensures Valid() && queues == old(queues)[i := []]
      ensures forall p :: p in known && old(Naming(queues[i], p)) > 0 ==> (p.destroyed <==> NamingAll(queues, p) == 0)
      ensures forall p :: p in known && old(Naming(queues[i], p)) == 0 ==> p.destroyed == old(p.destroyed)
    {
      hide NamingAll, Naming;
      ghost var first, n := queues[i], 0;
      forall p: Packet ensures Naming(first[..0], p) == 0 { NamingNone(first, p); }
      while queues[i] != []
        invariant Valid() && n <= |first| && |queues| == |old(queues)| && queues == old(queues)[i := first[n..]]
        invariant forall p :: p in known && Naming(first[..n], p) > 0 ==> (p.destroyed <==> NamingAll(queues, p) == 0)
        invariant forall p :: p in known && Naming(first[..n], p) == 0 ==> p.destroyed == old(p.destroyed)
        decreases |queues[i]|
      {
        assert first[n..][1..] == first[n + 1..] && first[n..][0] == first[n];
        ReleaseFirst(i);
        forall p: Packet ensures Naming(first[..n + 1], p) == Naming(first[..n], p) + if p == first[n] then 1 else 0 {
          NamingNext(first, n, p);
        }
        n := n + 1;
      }
      assert first[..n] == first;
    }

    /** enet_peer_send of a packet in pieces: one entry each, and as many references. */
    method InsertFragments(i: nat, packet: Packet, count: nat)
      requires Valid() && i < |queues| && packet in known && !packet.destroyed
      modifies this`queues, packet
      ensures Valid() && !packet.destroyed && packet.referenceCount == old(packet.referenceCount) + count
      ensures queues == old(queues)[i := old(queues)[i] + Copies(packet, count)]
    {
      hide NamingAll, Naming;
      ghost var q, qs := queues[i], queues;
      packet.referenceCount := packet.referenceCount + count;
      var n := 0;
      assert q + Copies(packet, 0) == q && qs[i := q] == qs;
      while n < count
        invariant n <= count && |queues| == |qs| && queues == qs[i := q + Copies(packet, n)]
        invariant packet.referenceCount == old(packet.referenceCount) + count && !packet.destroyed
      {
        assert q + Copies(packet, n + 1) == q + Copies(packet, n) + [packet];
        queues := queues[i := queues[i] + [packet]];
        n := n + 1;
      }
      forall p | p in known ensures NamingAll(queues, p) == NamingAll(qs, p) + if p == packet then count else 0 {
        NamingUpdate(qs, i, q + Copies(packet, count), p);
        NamingConcat(q, Copies(packet, count), p);
        NamingCopies(count, packet, p);
      }
      forall j, k | 0 <= j < |queues| && 0 <= k < |queues[j]| && queues[j][k] != null ensures queues[j][k] in known {
        if j == i && k >= |q| { CopiesAt(packet, count, k - |q|); }
      }
    }

    /** enet_peer_send: one entry for a packet that fits a command, or one for each of its pieces. */
    method Send(peer: PeerQueues, packet: Packet, dataLength: nat, fragmentLength: nat, reliable: bool)
        returns (result: int)
      requires Valid() && peer.Within(|queues|) && packet in known && !packet.destroyed && 0 < fragmentLength
      modifies this`queues, packet
      ensures Valid() && result == (if peer.connected then 0 else -1) && !packet.destroyed
      ensures queues == Sent(old(queues), peer, packet, dataLength, fragmentLength, reliable)
      ensures packet.referenceCount ==
        old(packet.referenceCount) + if peer.connected then Pieces(dataLength, fragmentLength) else 0
    {
      if !peer.connected { return -1; }
      if dataLength > fragmentLength {
        InsertFragments(peer.outgoingReliable, packet, Pieces(dataLength, fragmentLength));
      } else {
        var i := if reliable then peer.outgoingReliable else peer.outgoingUnreliable;
        ghost var q := queues[i];
        Insert(i, |queues[i]|, packet);
        OneCopy(q, packet);
      }
      return 0;
    }

    /** enet_host_broadcast: every connected peer is sent the packet, cut up for it if it must be; a packet no
        peer took is destroyed. */
    method Broadcast(peers: seq<PeerQueues>, packet: Packet, dataLength: nat, fragmentLengths: seq<nat>, reliable: bool)
      requires Valid() && packet in known && !packet.destroyed && |fragmentLengths| == |peers|
      requires forall k :: 0 <= k < |peers| ==> peers[k].Within(|queues|) && 0 < fragmentLengths[k]
      modifies this`queues, packet
      ensures Valid() && queues == SentAll(old(queues), peers, packet, dataLength, fragmentLengths, reliable)
      ensures packet.referenceCount == old(packet.referenceCount) + PiecesOfAll(peers, dataLength, fragmentLengths)
      ensures packet.destroyed <==> NamingAll(queues, packet) == 0
    {
      hide NamingAll, Sent;
      var k := 0;
      while k < |peers|
        invariant k <= |peers| && Valid() && !packet.destroyed
        invariant queues == SentAll(old(queues), peers[..k], packet, dataLength, fragmentLengths[..k], reliable)
        invariant packet.referenceCount ==
          old(packet.referenceCount) + PiecesOfAll(peers[..k], dataLength, fragmentLengths[..k])
      {
        assert peers[..k + 1][..k] == peers[..k] && fragmentLengths[..k + 1][..k] == fragmentLengths[..k];
        if peers[k].connected {
          var result := Send(peers[k], packet, dataLength, fragmentLengths[k], reliable);
        } else {
          NotSent(queues, peers[k], packet, dataLength, fragmentLengths[k], reliable);
        }
        k := k + 1;
      }
      assert peers[..k] == peers && fragmentLengths[..k] == fragmentLengths;
      if packet.referenceCount == 0 {
        packet.destroyed := true;
      }
    }

    /** enet_peer_queue_incoming_command: the packet of an arriving command finds its place in a queue; a
        packet that came too late, too early or twice is dropped, and goes unless something else names it. */
    method QueueIncoming(i: nat, at: nat, packet: Packet, taken: bool)
      requires Valid() && i < |queues| && at <= |queues[i]| && packet in known && !packet.destroyed
      modifies this`queues, packet
      ensures Valid() && (packet.destroyed <==> NamingAll(queues, packet) == 0)
      ensures queues ==
        if taken then old(queues)[i := old(queues)[i][..at] + [packet] + old(queues)[i][at..]] else old(queues)
      ensures packet.referenceCount == old(packet.referenceCount) + if taken then 1 else 0
    {
      hide NamingAll;
      if taken {
        Insert(i, at, packet);
      } else if packet.referenceCount == 0 {
        packet.destroyed := true;
      }
    }

    /** enet_peer_reset_queues: all queues of a peer are empty, no other is touched, and of the packets
        that were named in them exactly those are gone that nothing else names. */
    method ResetQueues(peer: PeerQueues)
      requires Valid() && peer.Within(|queues|) && Distinct(peer.All())
      modifies this`queues, known
      ensures Valid() && queues == Emptied(old(queues), peer.All())
      ensures forall p :: p in known && old(NamedIn(queues, peer.All(), p)) ==>
        (p.destroyed <==> NamingAll(queues, p) == 0)
      ensures forall p :: p in known && !old(NamedIn(queues, peer.All(), p)) ==> p.destroyed == old(p.destroyed)
    {
      hide NamingAll, Naming, Valid;
      var all, k := peer.All(), 0;
      while k < |all|
        invariant k <= |all| && Valid() && |queues| == |old(queues)| && queues == Emptied(old(queues), all[..k])
        invariant forall p :: p in known && old(NamedIn(queues, all[..k], p)) ==>
          (p.destroyed <==> NamingAll(queues, p) == 0)
        invariant forall p :: p in known && !old(NamedIn(queues, all[..k], p)) ==> p.destroyed == old(p.destroyed)
      {
        ghost var qs := queues;
        var i := all[k];
        assert all[..k + 1][..k] == all[..k];
        StillThere(old(queues), all, k);
        ResetQueue(i);
        forall p | p in known
          ensures NamingAll(queues, p) == NamingAll(qs, p) - Naming(qs[i], p)
          ensures old(NamedIn(queues, all[..k + 1], p)) <==> old(NamedIn(queues, all[..k], p)) || Naming(qs[i], p) > 0
        {
          NamingUpdate(qs, i, [], p);
          NamingNone([], p);
          NamedInNext(old(queues), all, k, p);
        }
        k := k + 1;
      }
      assert all[..k] == all;
    }
  }

  /** The queues of a peer, by number: its own, and those of its channels for reliable and other commands. */
  datatype PeerQueues = PeerQueues(
    connected: bool, sentReliable: nat, sentUnreliable: nat, outgoingReliable: nat, outgoingUnreliable: nat,
    dispatched: nat, channels: seq<nat>)
  {
    /** In the order in which enet_peer_reset_queues empties them. */
    function All(): seq<nat> {
      [sentReliable, sentUnreliable, outgoingReliable, outgoingUnreliable, dispatched] + channels
    }

    predicate Within(n: nat): (within: bool)
      ensures within ==> outgoingReliable < n && outgoingUnreliable < n
    {
      assert All()[2] == outgoingReliable && All()[3] == outgoingUnreliable;
      forall k :: 0 <= k < |All()| ==> All()[k] < n
    }
  }

  ghost predicate Distinct(all: seq<nat>) {
    forall j, k :: 0 <= j < k < |all| ==> all[j] != all[k]
  }

  /** How many commands a packet takes: the least number whose lengths suffice. */
  function Pieces(dataLength: nat, fragmentLength: nat): (n: nat)
    requires 0 < fragmentLength
    ensures 1 <= n && dataLength <= n * fragmentLength
    ensures n > 1 ==> (n - 1) * fragmentLength < dataLength
  {
    QuotientBounds(dataLength + fragmentLength - 1, fragmentLength);
    if dataLength > fragmentLength then (dataLength + fragmentLength - 1) / fragmentLength else 1
  }

  function PiecesOfAll(peers: seq<PeerQueues>, dataLength: nat, fragmentLengths: seq<nat>): nat
    requires |fragmentLengths| == |peers| && forall k :: 0 <= k < |peers| ==> 0 < fragmentLengths[k]
  {
    if peers == [] then 0
    else
      var k := |peers| - 1;
      PiecesOfAll(peers[..k], dataLength, fragmentLengths[..k]) +
      if peers[k].connected then Pieces(dataLength, fragmentLengths[k]) else 0
  }

  /** The queues behind a packet sent to a peer. */
  function Sent(qs: seq<seq<Packet?>>, peer: PeerQueues, packet: Packet, dataLength: nat, fragmentLength: nat,
                reliable: bool):
      (r: seq<seq<Packet?>>)
    requires peer.Within(|qs|) && 0 < fragmentLength
    ensures |r| == |qs|
  {
    if !peer.connected then qs
    else
      var i := if dataLength > fragmentLength || reliable then peer.outgoingReliable else peer.outgoingUnreliable;
      qs[i := qs[i] + Copies(packet, Pieces(dataLength, fragmentLength))]
  }

  function SentAll(qs: seq<seq<Packet?>>, peers: seq<PeerQueues>, packet: Packet, dataLength: nat,
                   fragmentLengths: seq<nat>, reliable: bool): (r: seq<seq<Packet?>>)
    requires |fragmentLengths| == |peers|
    requires forall k :: 0 <= k < |peers| ==> peers[k].Within(|qs|) && 0 < fragmentLengths[k]
    ensures |r| == |qs|
  {
    if peers == [] then qs
    else
      var k := |peers| - 1;
      Sent(SentAll(qs, peers[..k], packet, dataLength, fragmentLengths[..k], reliable),
           peers[k], packet, dataLength, fragmentLengths[k], reliable)
  }

  lemma NotSent(qs: seq<seq<Packet?>>, peer: PeerQueues, packet: Packet, dataLength: nat, fragmentLength: nat,
                reliable: bool)
    requires peer.Within(|qs|) && 0 < fragmentLength && !peer.connected
    ensures Sent(qs, peer, packet, dataLength, fragmentLength, reliable) == qs
  {
  }

  lemma OneCopy(q: seq<Packet?>, packet: Packet)
    ensures q[..|q|] + [packet] + q[|q|..] == q + Copies(packet, 1)
  {
    assert Copies(packet, 0) == [];
  }

  /** Queues of which the listed ones were emptied. */
  function Emptied(qs: seq<seq<Packet?>>, all: seq<nat>): (r: seq<seq<Packet?>>)
    requires forall k :: 0 <= k < |all| ==> all[k] < |qs|
    ensures |r| == |qs|
  {
    if all == [] then qs else Emptied(qs, all[..|all| - 1])[all[|all| - 1] := []]
  }

  /** What is not emptied yet is still there. */
  lemma {:induction false} StillThere(qs: seq<seq<Packet?>>, all: seq<nat>, k: nat)
    requires Distinct(all) && k < |all| && forall j :: 0 <= j < |all| ==> all[j] < |qs|
    ensures Emptied(qs, all[..k])[all[k]] == qs[all[k]]
  {
    EmptiedOthers(qs, all[..k], all[k]);
  }

  lemma {:induction false} EmptiedOthers(qs: seq<seq<Packet?>>, all: seq<nat>, i: nat)
    requires i < |qs| && forall j :: 0 <= j < |all| ==> all[j] < |qs| && all[j] != i
    ensures Emptied(qs, all)[i] == qs[i]
  {
    if all != [] { EmptiedOthers(qs, all[..|all| - 1], i); }
  }

  /** An entry of one of the listed queues names a packet. */
  ghost predicate NamedIn(qs: seq<seq<Packet?>>, all: seq<nat>, p: Packet)
    requires forall k :: 0 <= k < |all| ==> all[k] < |qs|
  {
    exists k :: 0 <= k < |all| && Naming(qs[all[k]], p) > 0
  }

  lemma NamedInNext(qs: seq<seq<Packet?>>, all: seq<nat>, k: nat, p: Packet)
    requires k < |all| && forall j :: 0 <= j < |all| ==> all[j] < |qs|
    ensures NamedIn(qs, all[..k + 1], p) <==> NamedIn(qs, all[..k], p) || Naming(qs[all[k]], p) > 0
  {
    hide Naming;
    assert all[..k + 1] == all[..k] + [all[k]];
    if NamedIn(qs, all[..k], p) {
      var j :| 0 <= j < k && Naming(qs[all[..k][j]], p) > 0;
      assert all[..k + 1][j] == all[j];
    }
    if Naming(qs[all[k]], p) > 0 {
      assert all[..k + 1][k] == all[k];
    }
  }

  lemma {:induction false} NotNamed(qs: seq<seq<Packet?>>, p: Packet)
    requires forall i, k :: 0 <= i < |qs| && 0 <= k < |qs[i]| ==> qs[i][k] != p
    ensures NamingAll(qs, p) == 0
  {
    if qs != [] {
      var n := |qs| - 1;
      assert forall k :: 0 <= k < |qs[n]| ==> qs[n][k] != p;
      NotNamedInQueue(qs[n], p);
      NotNamed(qs[..n], p);
    }
  }

  lemma {:induction false} NotNamedInQueue(q: seq<Packet?>, p: Packet)
    requires forall k :: 0 <= k < |q| ==> q[k] != p
    ensures Naming(q, p) == 0
  {
    if q != [] { NotNamedInQueue(q[..|q| - 1], p); }
  }

  /** As many entries for one packet. */
  function Copies(packet: Packet, count: nat): (q: seq<Packet?>)
    ensures |q| == count
  {
    if count == 0 then [] else Copies(packet, count - 1) + [packet]
  }

  lemma {:induction false} CopiesAt(packet: Packet, count: nat, k: nat)
    requires k < count
    ensures Copies(packet, count)[k] == packet
  {
    if k < count - 1 { CopiesAt(packet, count - 1, k); }
  }

  lemma {:induction false} NamingCopies(count: nat, packet: Packet, p: Packet)
    ensures Naming(Copies(packet, count), p) == if p == packet then count else 0
  {
    if count > 0 {
      assert Copies(packet, count)[..count - 1] == Copies(packet, count - 1);
      NamingCopies(count - 1, packet, p);
    }
  }

  lemma NamingNext(q: seq<Packet?>, n: nat, p: Packet)
    requires n < |q|
    ensures Naming(q[..n + 1], p) == Naming(q[..n], p) + if p == q[n] then 1 else 0
  {
    assert q[..n + 1][..n] == q[..n];
  }

  lemma NamingNone(q: seq<Packet?>, p: Packet)
    ensures Naming(q[..0], p) == 0
  {
  }
}
