/** enet_peer_send: cutting a packet into commands and numbering them. What it queues is exactly the
    stream of commands that PacketStream assigns to the packets sent so far. */
module ReliableSender {
  import opened Octets
  import opened SequenceNumbers
  import opened ReliableReceiver
  import opened PacketStream

  /** Commands the receiver need not acknowledge. */
  datatype Unacknowledged =
    | Unreliable(reliableSequence: Sequence, unreliableSequence: Sequence, data: seq<Byte>)
    | Unsequenced(group: Sequence, data: seq<Byte>)

  /** The first n commands of packet i. */
  function CommandsOf(ps: seq<Packet>, i: nat, n: nat): (cs: seq<Command>)
    requires AllSendable(ps) && i < |ps| && n <= Numbers(ps[i])
    ensures |cs| == n
  {
    if n == 0 then [] else CommandsOf(ps, i, n - 1) + [CommandOf(ps, i, n - 1)]
  }

  /** All commands of the first n packets. */
  function StreamOf(ps: seq<Packet>, n: nat): seq<Command>
    requires AllSendable(ps) && n <= |ps|
  {
    if n == 0 then [] else StreamOf(ps, n - 1) + CommandsOf(ps, n - 1, Numbers(ps[n - 1]))
  }

  lemma {:induction false} CommandsAt(ps: seq<Packet>, i: nat, n: nat, k: nat)
    requires AllSendable(ps) && i < |ps| && k < n <= Numbers(ps[i])
    ensures CommandsOf(ps, i, n)[k] == CommandOf(ps, i, k)
  {
    if k < n - 1 { CommandsAt(ps, i, n - 1, k); }
  }

  /** Command k of packet i is queued at the place its true number says, and nothing else is queued: what
      the network is given are the commands its deliveries are of. */
  lemma {:induction false} StreamPosition(ps: seq<Packet>, n: nat, i: nat, k: nat)
    requires AllSendable(ps) && i < n <= |ps| && k < Numbers(ps[i])
    ensures |StreamOf(ps, n)| == Start(ps, n) - 1 && Start(ps, i) - 1 + k < |StreamOf(ps, n)|
    ensures StreamOf(ps, n)[Start(ps, i) - 1 + k] == CommandOf(ps, i, k)
  {
    StreamLength(ps, n - 1);
    OnePacketMore(ps, n - 1);
    if i < n - 1 {
      StreamPosition(ps, n - 1, i, k);
    } else {
      CommandsAt(ps, i, Numbers(ps[i]), k);
    }
  }

  lemma {:induction false} StreamLength(ps: seq<Packet>, n: nat)
    requires AllSendable(ps) && n <= |ps|
    ensures |StreamOf(ps, n)| == Start(ps, n) - 1
  {
    if n > 0 {
      StreamLength(ps, n - 1);
      OnePacketMore(ps, n - 1);
    }
  }

  /** Sending more packets does not change the commands of the earlier ones. */
  lemma {:induction false} StartStable(ps: seq<Packet>, p: Packet, n: nat)
    requires AllSendable(ps) && Sendable(p) && n <= |ps|
    ensures AllSendable(ps + [p]) && Start(ps + [p], n) == Start(ps, n)
  {
    if n > 0 {
      StartStable(ps, p, n - 1);
    }
  }

  lemma {:induction false} CommandsStable(ps: seq<Packet>, p: Packet, i: nat, n: nat)
    requires AllSendable(ps) && Sendable(p) && i < |ps| && n <= Numbers(ps[i])
    ensures AllSendable(ps + [p]) && CommandsOf(ps + [p], i, n) == CommandsOf(ps, i, n)
  {
    StartStable(ps, p, i);
    if n > 0 {
      CommandsStable(ps, p, i, n - 1);
    }
  }

  lemma {:induction false} StreamStable(ps: seq<Packet>, p: Packet, n: nat)
    requires AllSendable(ps) && Sendable(p) && n <= |ps|
    ensures AllSendable(ps + [p]) && StreamOf(ps + [p], n) == StreamOf(ps, n)
  {
    if n > 0 {
      StreamStable(ps, p, n - 1);
      CommandsStable(ps, p, n - 1, Numbers(ps[n - 1]));
    }
  }

  /** The pieces of a packet are consecutive and cover it: joined in order they give it back. */
  function Joined(p: Packet, n: nat): seq<Byte>
    requires Sendable(p) && IsFragmented(p) && n <= Numbers(p)
  {
    if n == 0 then [] else Joined(p, n - 1) + Piece(p, n - 1)
  }

  lemma {:induction false} JoinedIsPrefix(p: Packet, n: nat)
    requires Sendable(p) && IsFragmented(p) && n <= Numbers(p)
    ensures Joined(p, n) == p.data[..Minimum(n * p.fragmentLength, |p.data|)]
  {
    if n > 0 {
      JoinedIsPrefix(p, n - 1);
      PieceBounds(p, n - 1);
    }
  }

  lemma FragmentsCover(p: Packet)
    requires Sendable(p) && IsFragmented(p)
    ensures Joined(p, Numbers(p)) == p.data
    ensures forall k :: 0 <= k < Numbers(p) - 1 ==> |Piece(p, k)| == p.fragmentLength
    ensures 0 < |Piece(p, Numbers(p) - 1)| <= p.fragmentLength
  {
    var f, n := p.fragmentLength, Numbers(p);
    JoinedIsPrefix(p, n);
    forall k | 0 <= k < n - 1 ensures |Piece(p, k)| == f {
      Scale(k + 1, n - 1, f);
      assert (k + 1) * f == k * f + f;
    }
    PieceBounds(p, n - 1);
    assert (n - 1) * f + f == n * f;
  }

  /** The sending half of a peer, for one channel. */
  class Sender {
    var outgoingReliableSequenceNumber: Sequence
    var outgoingUnreliableSequenceNumber: Sequence
    var outgoingUnsequencedGroup: Sequence
    var outgoingReliableCommands: seq<Command>
    var outgoingUnreliableCommands: seq<Unacknowledged>
    ghost var sent: seq<Packet>

    /** The numbers given out and the commands queued are those of the packets sent reliably. */
    ghost predicate Valid()
      reads this
    {
      && AllSendable(sent)
      && outgoingReliableSequenceNumber == (Start(sent, |sent|) - 1) % SEQUENCE_SPACE
      && outgoingReliableCommands == StreamOf(sent, |sent|)
    }

    constructor ()
      ensures Valid() && sent == [] && outgoingUnreliableCommands == []
      ensures outgoingUnreliableSequenceNumber == outgoingUnsequencedGroup == 0
    {
      outgoingReliableSequenceNumber, outgoingUnreliableSequenceNumber, outgoingUnsequencedGroup := 0, 0, 0;
      outgoingReliableCommands, outgoingUnreliableCommands, sent := [], [], [];
    }

    /** enet_peer_setup_outgoing_command for an acknowledged command: it gets the next number. */
    method SetupReliable(c: Command)
      modifies this`outgoingReliableSequenceNumber, this`outgoingUnreliableSequenceNumber, this`outgoingReliableCommands
      ensures outgoingReliableSequenceNumber == (old(outgoingReliableSequenceNumber) + 1) % SEQUENCE_SPACE
      ensures outgoingUnreliableSequenceNumber == 0
      ensures outgoingReliableCommands ==
        old(outgoingReliableCommands) + [c.(sequence := outgoingReliableSequenceNumber)]
    {
      outgoingReliableSequenceNumber := (outgoingReliableSequenceNumber + 1) % SEQUENCE_SPACE;
      outgoingUnreliableSequenceNumber := 0;
      outgoingReliableCommands := outgoingReliableCommands + [c.(sequence := outgoingReliableSequenceNumber)];
    }

    /** The fragment loop of enet_peer_send: all fragments but their sequence numbers. */
    method CutFragments(data: seq<Byte>, mtuLength: nat) returns (fragments: seq<Command>)
      requires 0 < mtuLength < |data| && AllSendable(sent)
      ensures var p := Packet(data, mtuLength);
        && |fragments| == Numbers(p)
        && forall k :: 0 <= k < |fragments| ==>
          fragments[k] == Cut(p, (outgoingReliableSequenceNumber + 1) % SEQUENCE_SPACE, k)
    {
      ghost var p := Packet(data, mtuLength);
      var fragmentLength := mtuLength;
      var startSequenceNumber := (outgoingReliableSequenceNumber + 1) % SEQUENCE_SPACE;
      var fragmentCount := (|data| + fragmentLength - 1) / fragmentLength;
      var fragmentNumber: nat, fragmentOffset: nat := 0, 0;
      fragments := [];
      while fragmentOffset < |data|
        invariant |fragments| == fragmentNumber <= Numbers(p) == fragmentCount
        invariant fragmentOffset == Minimum(fragmentNumber * mtuLength, |data|)
        invariant fragmentOffset < |data| ==> fragmentLength == mtuLength && fragmentNumber < Numbers(p)
        invariant fragmentNumber == Numbers(p) || fragmentOffset < |data|
        invariant forall k :: 0 <= k < |fragments| ==> fragments[k] == Cut(p, startSequenceNumber, k)
        decreases |data| - fragmentOffset
      {
        if |data| - fragmentOffset < fragmentLength {
          fragmentLength := |data| - fragmentOffset;
        }
        PieceBounds(p, fragmentNumber);
        NextOffset(p, fragmentNumber);
        var fragment := Fragment(0, startSequenceNumber, fragmentNumber, fragmentCount, fragmentOffset, |data|,
                                 data[fragmentOffset..fragmentOffset + fragmentLength]);
        fragments := fragments + [fragment];
        fragmentNumber := fragmentNumber + 1;
        fragmentOffset := fragmentOffset + fragmentLength;
      }
    }

    /** The loop of enet_peer_send that numbers and queues the fragments, the last of `ps`. */
    method SetupFragments(fragments: seq<Command>, ghost ps: seq<Packet>, ghost i: nat)
      requires AllSendable(ps) && i < |ps| && IsFragmented(ps[i]) && |fragments| == Numbers(ps[i])
      requires outgoingReliableSequenceNumber == (Start(ps, i) - 1) % SEQUENCE_SPACE
      requires forall k :: 0 <= k < |fragments| ==> fragments[k] == Cut(ps[i], Start(ps, i) % SEQUENCE_SPACE, k)
      modifies this`outgoingReliableSequenceNumber, this`outgoingUnreliableSequenceNumber, this`outgoingReliableCommands
      ensures outgoingReliableSequenceNumber == (Start(ps, i) + Numbers(ps[i]) - 1) % SEQUENCE_SPACE
      ensures outgoingReliableCommands == old(outgoingReliableCommands) + CommandsOf(ps, i, Numbers(ps[i]))
      ensures outgoingUnreliableSequenceNumber == 0
    {
      ghost var before := outgoingReliableCommands;
      assert before + CommandsOf(ps, i, 0) == before;
      hide Numbers, Start, Cut, CommandOf, CommandsOf;
      var k: nat := 0;
      while k < |fragments|
        invariant k <= |fragments|
        invariant outgoingReliableSequenceNumber == (Start(ps, i) + k - 1) % SEQUENCE_SPACE
        invariant outgoingReliableCommands == before + CommandsOf(ps, i, k)
        invariant k > 0 ==> outgoingUnreliableSequenceNumber == 0
      {
        Wrapped(Start(ps, i) + k - 1);
        NumberedCut(ps, i, k);
        SetupReliable(fragments[k]);
        assert before + CommandsOf(ps, i, k + 1) == before + CommandsOf(ps, i, k) + [CommandOf(ps, i, k)];
        k := k + 1;
      }
    }

    /** The branch of enet_peer_send for a packet that needs fragments. */
    method SendFragments(data: seq<Byte>, mtuLength: nat)
      requires Valid() && 0 < mtuLength < |data|
      modifies this`outgoingReliableSequenceNumber, this`outgoingUnreliableSequenceNumber,
        this`outgoingReliableCommands, this`sent
      ensures Valid() && sent == old(sent) + [Packet(data, mtuLength)] && outgoingUnreliableSequenceNumber == 0
    {
      ghost var p, ps := Packet(data, mtuLength), sent;
      var fragments := CutFragments(data, mtuLength);
      sent := sent + [p];
      StreamStable(ps, p, |ps|);
      StartStable(ps, p, |ps|);
      assert sent[|ps|] == p;
      Wrapped(Start(ps, |ps|) - 1);
      hide Numbers, Start, Cut, StreamOf, CommandsOf;
      SetupFragments(fragments, sent, |ps|);
      OnePacketMore(sent, |ps|);
    }

    /** The branch for a packet sent reliably in one command. */
    method SendWhole(data: seq<Byte>, mtuLength: nat)
      requires Valid() && 0 < mtuLength && |data| <= mtuLength
      modifies this`outgoingReliableSequenceNumber, this`outgoingUnreliableSequenceNumber,
        this`outgoingReliableCommands, this`sent
      ensures Valid() && sent == old(sent) + [Packet(data, mtuLength)] && outgoingUnreliableSequenceNumber == 0
    {
      hide Numbers, Start, StreamOf, CommandsOf, CommandOf;
      ghost var p, ps := Packet(data, mtuLength), sent;
      sent := sent + [p];
      StreamStable(ps, p, |ps|);
      StartStable(ps, p, |ps|);
      assert sent[|ps|] == p;
      Wrapped(Start(ps, |ps|) - 1);
      SetupReliable(Reliable(0, data));
      OnlyCommand(sent, |ps|);
      OnePacketMore(sent, |ps|);
    }

    /** enet_peer_send for a connected peer and an existing channel: a packet larger than a fragment is
        cut up and sent reliably whatever its flags; so is an unreliable one when the unreliable
        numbers have run out. */
    method Send(data: seq<Byte>, mtuLength: nat, reliable: bool, unsequenced: bool)
      requires Valid() && 0 < mtuLength
      modifies this
      ensures Valid()
      ensures
        var whole := |data| <= mtuLength && !reliable &&
          (unsequenced || old(outgoingUnreliableSequenceNumber) < 0xFFFF);
        && sent == old(sent) + (if whole then [] else [Packet(data, mtuLength)])
        && outgoingUnsequencedGroup ==
             (if whole && unsequenced then (old(outgoingUnsequencedGroup) + 1) % SEQUENCE_SPACE
              else old(outgoingUnsequencedGroup))
        && outgoingUnreliableSequenceNumber ==
             (if !whole then 0 else old(outgoingUnreliableSequenceNumber) + if unsequenced then 0 else 1)
        && outgoingUnreliableCommands == old(outgoingUnreliableCommands) +
             if !whole then []
             else if unsequenced then [Unsequenced((old(outgoingUnsequencedGroup) + 1) % SEQUENCE_SPACE, data)]
             else [Unreliable(old(outgoingReliableSequenceNumber), old(outgoingUnreliableSequenceNumber) + 1, data)]
    {
      if |data| > mtuLength {
        SendFragments(data, mtuLength);
      } else if reliable || (!unsequenced && outgoingUnreliableSequenceNumber >= 0xFFFF) {
        SendWhole(data, mtuLength);
      } else if unsequenced {
        outgoingUnsequencedGroup := (outgoingUnsequencedGroup + 1) % SEQUENCE_SPACE;
        outgoingUnreliableCommands := outgoingUnreliableCommands + [Unsequenced(outgoingUnsequencedGroup, data)];
      } else {
        outgoingUnreliableSequenceNumber := outgoingUnreliableSequenceNumber + 1;
        outgoingUnreliableCommands := outgoingUnreliableCommands +
          [Unreliable(outgoingReliableSequenceNumber, outgoingUnreliableSequenceNumber, data)];
      }
    }
  }

  /** A packet that fits one command is one. */
  lemma OnlyCommand(ps: seq<Packet>, i: nat)
    requires AllSendable(ps) && i < |ps| && !IsFragmented(ps[i])
    ensures Numbers(ps[i]) == 1 && CommandsOf(ps, i, 1) == [Reliable(Start(ps, i) % SEQUENCE_SPACE, ps[i].data)]
  {
    assert CommandsOf(ps, i, 1) == CommandsOf(ps, i, 0) + [CommandOf(ps, i, 0)];
  }

  lemma OnePacketMore(ps: seq<Packet>, n: nat)
    requires AllSendable(ps) && n < |ps|
    ensures StreamOf(ps, n + 1) == StreamOf(ps, n) + CommandsOf(ps, n, Numbers(ps[n]))
    ensures Start(ps, n + 1) == Start(ps, n) + Numbers(ps[n])
  {
  }

  /** Fragment k of p before it has its own number. */
  function Cut(p: Packet, start: Sequence, k: nat): Command
    requires Sendable(p) && IsFragmented(p) && k < Numbers(p)
  {
    Fragment(0, start, k, Numbers(p), k * p.fragmentLength, |p.data|, Piece(p, k))
  }

  lemma Wrapped(x: int)
    requires 0 <= x
    ensures (x % SEQUENCE_SPACE + 1) % SEQUENCE_SPACE == (x + 1) % SEQUENCE_SPACE
  {
  }

  /** Where the loop stands after fragment k. */
  lemma NextOffset(p: Packet, k: nat)
    requires Sendable(p) && IsFragmented(p) && k < Numbers(p)
    ensures var f, n := p.fragmentLength, |p.data|;
      && k * f < n
      && (n - k * f < f ==> PieceEnd(p, k) == n && k + 1 == Numbers(p))
      && (f <= n - k * f ==> PieceEnd(p, k) == k * f + f == (k + 1) * f)
      && Minimum((k + 1) * f, n) == PieceEnd(p, k)
      && (k + 1 < Numbers(p) <==> (k + 1) * f < n)
  {
    var f, n := p.fragmentLength, |p.data|;
    PieceBounds(p, k);
    assert (k + 1) * f == k * f + f;
    if k + 1 < Numbers(p) { Scale(k + 1, Numbers(p) - 1, f); } else { Scale(Numbers(p), k + 1, f); }
  }

  lemma NumberedCut(ps: seq<Packet>, i: nat, k: nat)
    requires AllSendable(ps) && i < |ps| && IsFragmented(ps[i]) && k < Numbers(ps[i])
    ensures Cut(ps[i], Start(ps, i) % SEQUENCE_SPACE, k).(sequence := (Start(ps, i) + k) % SEQUENCE_SPACE)
         == CommandOf(ps, i, k)
    ensures CommandsOf(ps, i, k + 1) == CommandsOf(ps, i, k) + [CommandOf(ps, i, k)]
  {
  }
}
