/** The receiving side of one reliable channel (enet/peer.c, enet/protocol.c): what each arriving
    command does to the expected sequence number, the queue of commands that came early and the
    list of commands ready for the application. */
module ReliableReceiver {
  import opened Octets
  import opened SequenceNumbers

  /** ENetIncomingCommand with its packet. A fragmented packet starts with all its bits clear. */
  datatype Incoming = Incoming(
    sequence: Sequence, isFragment: bool, fragmentCount: nat, fragmentsRemaining: nat,
    fragments: seq<bool>, data: seq<Byte>)

  datatype Receiver = Receiver(
    expected: Sequence, queue: seq<Incoming>, dispatched: seq<Incoming>, leaving: bool)

  /** The commands a reliable channel receives; fragments name the first command of their packet. */
  datatype Command =
    | Reliable(sequence: Sequence, data: seq<Byte>)
    | Fragment(sequence: Sequence, start: Sequence, number: nat, count: nat, offset: nat, total: nat, data: seq<Byte>)

  /** How many windows s lies ahead of the window of the last dispatched number. */
  function WindowsAhead(expected: Sequence, s: Sequence): int {
    s / WINDOW_SIZE + (if s < expected then WINDOWS else 0) - expected / WINDOW_SIZE
  }

  predicate InWindow(expected: Sequence, s: Sequence) {
    0 <= WindowsAhead(expected, s) < FREE_WINDOWS - 1
  }

  /** enet_peer_queue_acknowledgement: a command too far ahead to have been kept is not acknowledged. */
  predicate Acknowledges(r: Receiver, s: Sequence) {
    !(FREE_WINDOWS - 1 <= WindowsAhead(r.expected, s) <= FREE_WINDOWS)
  }

  /** Whether a queued number comes after s in the order that starts behind `expected`. */
  predicate Later(expected: Sequence, queued: Sequence, s: Sequence) {
    if s >= expected then queued < expected || queued > s
    else queued < expected && queued > s
  }

  datatype Scanned = At(position: nat) | Duplicate(position: nat)

  /** The backward scan both handlers make: past all later entries, to an equal one or to the gap. */
  function Scan(queue: seq<Incoming>, expected: Sequence, s: Sequence, k: nat): (r: Scanned)
    requires k <= |queue|
    ensures r.At? ==> r.position <= k
    ensures r.Duplicate? ==> r.position < k && queue[r.position].sequence == s
  {
    if k == 0 then At(0)
    else if Later(expected, queue[k - 1].sequence, s) then Scan(queue, expected, s, k - 1)
    else if queue[k - 1].sequence == s then Duplicate(k - 1)
    else At(k)
  }

  predicate Ready(e: Incoming, expected: Sequence) {
    e.fragmentsRemaining == 0 && e.sequence == (expected + 1) % SEQUENCE_SPACE
  }

  /** The number reached once e has been dispatched: a fragmented packet takes one per fragment. */
  function Reached(e: Incoming): Sequence {
    if e.fragmentCount > 0 then (e.sequence + e.fragmentCount - 1) % SEQUENCE_SPACE else e.sequence
  }

  /** enet_peer_dispatch_incoming_reliable_commands: hands over everything that is now in order. */
  function Dispatch(r: Receiver): (r': Receiver)
    ensures r'.queue == [] || !Ready(r'.queue[0], r'.expected)
    decreases |r.queue|
  {
    if r.queue != [] && Ready(r.queue[0], r.expected) then
      Dispatch(r.(expected := Reached(r.queue[0]), queue := r.queue[1..], dispatched := r.dispatched + [r.queue[0]]))
    else
      r
  }

  lemma DispatchNone(r: Receiver)
    requires r.queue == [] || !Ready(r.queue[0], r.expected)
    ensures Dispatch(r) == r
  {
  }

  /** A receiver whose first n queued entries have been handed over. */
  ghost function Past(expected: Sequence, queue: seq<Incoming>, list: seq<Incoming>, leaving: bool, n: nat): Receiver
    requires n <= |queue|
  {
    Receiver(expected, queue[n..], list + queue[..n], leaving)
  }

  lemma PastNext(expected: Sequence, queue: seq<Incoming>, list: seq<Incoming>, leaving: bool, n: nat)
    requires n < |queue| && Ready(queue[n], expected)
    ensures Dispatch(Past(expected, queue, list, leaving, n))
         == Dispatch(Past(Reached(queue[n]), queue, list, leaving, n + 1))
  {
    assert queue[n..][1..] == queue[n + 1..];
    assert list + queue[..n] + [queue[n]] == list + queue[..n + 1];
  }

  lemma PastEnd(expected: Sequence, queue: seq<Incoming>, list: seq<Incoming>, leaving: bool, n: nat)
    requires n <= |queue| && (n < |queue| ==> !Ready(queue[n], expected))
    ensures Dispatch(Past(expected, queue, list, leaving, n)) ==
      Receiver(expected, queue[n..], list + queue[..n], leaving)
    ensures n == 0 ==> Dispatch(Past(expected, queue, list, leaving, n)) == Receiver(expected, queue, list, leaving)
  {
    DispatchNone(Past(expected, queue, list, leaving, n));
  }

  /** Nothing that could be handed over is left waiting. */
  predicate Drained(r: Receiver) {
    r.queue == [] || !Ready(r.queue[0], r.expected)
  }

  /** The number of fragments not received yet. */
  function Clear(fragments: seq<bool>): nat {
    if fragments == [] then 0
    else Clear(fragments[..|fragments| - 1]) + if fragments[|fragments| - 1] then 0 else 1
  }

  predicate EntryOk(e: Incoming) {
    && |e.fragments| == e.fragmentCount
    && e.fragmentsRemaining == Clear(e.fragments)
    && (e.isFragment <==> e.fragmentCount > 0)
  }

  /** What every call keeps, whatever the network delivers. */
  predicate Valid(r: Receiver) {
    Drained(r) && forall j :: 0 <= j < |r.queue| ==> EntryOk(r.queue[j])
  }

  function NoFragments(count: nat): (fragments: seq<bool>)
    ensures |fragments| == count && forall k :: 0 <= k < count ==> !fragments[k]
  {
    seq(count, _ => false)
  }

  lemma {:induction false} AllClear(fragments: seq<bool>)
    requires forall k :: 0 <= k < |fragments| ==> !fragments[k]
    ensures Clear(fragments) == |fragments|
  {
    if fragments != [] {
      AllClear(fragments[..|fragments| - 1]);
    }
  }

  lemma {:induction false} ClearAfterMark(fragments: seq<bool>, k: nat)
    requires k < |fragments| && !fragments[k]
    ensures Clear(fragments[k := true]) + 1 == Clear(fragments)
  {
    var n := |fragments| - 1;
    if k < n {
      ClearAfterMark(fragments[..n], k);
      assert fragments[k := true][..n] == fragments[..n][k := true];
    } else {
      assert fragments[k := true][..n] == fragments[..n];
    }
  }

  /** fragmentsRemaining is 0 exactly when every fragment has been received. */
  lemma {:induction false} NoneClear(fragments: seq<bool>)
    ensures Clear(fragments) == 0 <==> forall k :: 0 <= k < |fragments| ==> fragments[k]
  {
    if fragments != [] {
      var n := |fragments| - 1;
      NoneClear(fragments[..n]);
      assert (forall k :: 0 <= k < n ==> fragments[k]) <==> (forall k :: 0 <= k < n ==> fragments[..n][k]);
    }
  }

  lemma {:induction false} DispatchKeepsValid(r: Receiver)
    requires forall j :: 0 <= j < |r.queue| ==> EntryOk(r.queue[j])
    ensures Valid(Dispatch(r))
    decreases |r.queue|
  {
    if !Drained(r) {
      DispatchKeepsValid(
        r.(expected := Reached(r.queue[0]), queue := r.queue[1..], dispatched := r.dispatched + [r.queue[0]]));
    }
  }

  /** enet_peer_queue_incoming_command: what becomes of the receiver, whether the call succeeds, and
      where the entry went. */
  datatype Queueing = Queueing(receiver: Receiver, ok: bool, position: nat)

  function NewEntry(s: Sequence, isFragment: bool, fragmentCount: nat, data: seq<Byte>): Incoming {
    Incoming(s, isFragment, fragmentCount, fragmentCount, NoFragments(fragmentCount), data)
  }

  function Insert(r: Receiver, k: nat, e: Incoming): Receiver
    requires k <= |r.queue|
  {
    Dispatch(r.(queue := r.queue[..k] + [e] + r.queue[k..]))
  }

  function QueueIncoming(r: Receiver, s: Sequence, isFragment: bool, fragmentCount: nat, data: seq<Byte>): (q: Queueing)
    requires Valid(r) && (isFragment <==> fragmentCount > 0)
    ensures Valid(q.receiver)
    ensures isFragment && q.ok ==>
      q.position < |q.receiver.queue| && q.receiver.queue[q.position] == NewEntry(s, isFragment, fragmentCount, data)
  {
    if r.leaving || !InWindow(r.expected, s) || s == r.expected then
      Queueing(r, fragmentCount == 0, 0)
    else
      match Scan(r.queue, r.expected, s, |r.queue|)
      case Duplicate(_) => Queueing(r, fragmentCount == 0, 0)
      case At(k) =>
        var e := NewEntry(s, isFragment, fragmentCount, data);
        AllClear(e.fragments);
        DispatchKeepsValid(r.(queue := r.queue[..k] + [e] + r.queue[k..]));
        Queueing(Insert(r, k, e), true, k)
  }

  /** Writing a fragment into its packet, at most once. */
  function Marked(e: Incoming, f: Command): Incoming
    requires f.Fragment? && f.number < |e.fragments| && f.offset + |f.data| <= |e.data| && 0 < e.fragmentsRemaining
  {
    e.(fragmentsRemaining := e.fragmentsRemaining - 1,
       fragments := e.fragments[f.number := true],
       data := e.data[..f.offset] + f.data + e.data[f.offset + |f.data|..])
  }

  function Mark(r: Receiver, j: nat, f: Command): (r': Receiver)
    requires Valid(r) && f.Fragment? && j < |r.queue| && f.number < r.queue[j].fragmentCount
    requires f.offset + |f.data| <= |r.queue[j].data|
    ensures Valid(r')
  {
    var e := r.queue[j];
    if e.fragments[f.number] then
      r
    else
      ClearAfterMark(e.fragments, f.number);
      var e' := Marked(e, f);
      var r' := r.(queue := r.queue[j := e']);
      DispatchKeepsValid(r');
      if e'.fragmentsRemaining == 0 then Dispatch(r') else r'
  }

  /** A receiver and whether the handler succeeded; a failure drops the rest of the datagram
      unacknowledged. */
  datatype Handled = Handled(receiver: Receiver, ok: bool)

  /** enet_protocol_handle_send_fragment; `blank` is the uninitialised data of a new packet. */
  function HandleFragment(r: Receiver, f: Command, blank: seq<Byte>): (h: Handled)
    requires Valid(r) && f.Fragment? && |blank| == f.total
    ensures Valid(h.receiver)
  {
    if !InWindow(r.expected, f.start) then
      Handled(r, true)
    else if f.offset >= f.total || f.offset + |f.data| > f.total || f.number >= f.count then
      Handled(r, false)
    else
      match Scan(r.queue, r.expected, f.start, |r.queue|)
      case Duplicate(j) =>
        var e := r.queue[j];
        if !e.isFragment || |e.data| != f.total || e.fragmentCount != f.count then
          Handled(r, false)
        else
          Handled(Mark(r, j, f), true)
      case At(_) =>
        var q := QueueIncoming(r, f.start, true, f.count, blank);
        if !q.ok then Handled(r, false)
        else Handled(Mark(q.receiver, q.position, f), true)
  }

  /** enet_protocol_handle_send_reliable */
  function HandleReliable(r: Receiver, c: Command): (h: Handled)
    requires Valid(r) && c.Reliable?
    ensures Valid(h.receiver)
  {
    var q := QueueIncoming(r, c.sequence, false, 0, c.data);
    Handled(q.receiver, q.ok)
  }

  /** The order the scan uses is the order of distance from the expected number. */
  function Distance(expected: Sequence, s: Sequence): Sequence {
    (s - expected) % SEQUENCE_SPACE
  }

  lemma LaterIsFarther(expected: Sequence, queued: Sequence, s: Sequence)
    ensures Later(expected, queued, s) <==> Distance(expected, queued) > Distance(expected, s)
  {
  }

  /** The peer's channel as the C code keeps it. */
  class Channel {
    var incomingReliableSequenceNumber: Sequence
    var incomingReliableCommands: seq<Incoming>
    var dispatchedCommands: seq<Incoming>
    var disconnectLater: bool
    var acknowledgements: seq<Sequence>

    ghost function State(): Receiver
      reads this
    {
      Receiver(incomingReliableSequenceNumber, incomingReliableCommands, dispatchedCommands, disconnectLater)
    }

    constructor ()
      ensures State() == Receiver(0, [], [], false) && acknowledgements == []
    {
      incomingReliableSequenceNumber, acknowledgements := 0, [];
      incomingReliableCommands, dispatchedCommands, disconnectLater := [], [], false;
    }

    /** enet_peer_dispatch_incoming_reliable_commands */
    method DispatchIncomingReliableCommands()
      modifies this`incomingReliableSequenceNumber, this`incomingReliableCommands, this`dispatchedCommands
      ensures State() == Dispatch(old(State()))
    {
      var current: nat := 0;
      ghost var r0, queue, list := State(), incomingReliableCommands, dispatchedCommands;
      assert Past(incomingReliableSequenceNumber, queue, list, disconnectLater, 0) == r0;
      hide Dispatch, Past;
      while current < |incomingReliableCommands|
        invariant current <= |queue| && incomingReliableCommands == queue && dispatchedCommands == list
        invariant current == 0 ==> incomingReliableSequenceNumber == r0.expected
        invariant Dispatch(Past(incomingReliableSequenceNumber, queue, list, disconnectLater, current)) == Dispatch(r0)
      {
        var command := incomingReliableCommands[current];
        if command.fragmentsRemaining > 0 ||
           command.sequence != (incomingReliableSequenceNumber + 1) % SEQUENCE_SPACE {
          break;
        }
        PastNext(incomingReliableSequenceNumber, queue, list, disconnectLater, current);
        incomingReliableSequenceNumber := command.sequence;
        if command.fragmentCount > 0 {
          incomingReliableSequenceNumber :=
            (incomingReliableSequenceNumber + command.fragmentCount - 1) % SEQUENCE_SPACE;
        }
        current := current + 1;
      }
      PastEnd(incomingReliableSequenceNumber, queue, list, disconnectLater, current);
      if current == 0 { return; }
      dispatchedCommands := dispatchedCommands + incomingReliableCommands[..current];
      incomingReliableCommands := incomingReliableCommands[current..];
    }

    /** The scan from the end of the queue for the place of number s. */
    method FindPlace(s: Sequence) returns (r: Scanned)
      ensures r == Scan(incomingReliableCommands, incomingReliableSequenceNumber, s, |incomingReliableCommands|)
    {
      var k: nat := |incomingReliableCommands|;
      while k > 0
        invariant k <= |incomingReliableCommands|
        invariant Scan(incomingReliableCommands, incomingReliableSequenceNumber, s, k)
               == Scan(incomingReliableCommands, incomingReliableSequenceNumber, s, |incomingReliableCommands|)
      {
        var queued := incomingReliableCommands[k - 1].sequence;
        if s >= incomingReliableSequenceNumber {
          if queued < incomingReliableSequenceNumber {
            k := k - 1;
            continue;
          }
        } else if queued >= incomingReliableSequenceNumber {
          break;
        }
        if queued <= s {
          if queued < s { break; }
          return Duplicate(k - 1);
        }
        k := k - 1;
      }
      return At(k);
    }

    /** enet_peer_queue_incoming_command */
    method QueueIncomingCommand(s: Sequence, isFragment: bool, fragmentCount: nat, data: seq<Byte>)
        returns (ok: bool, position: nat)
      requires Valid(State()) && (isFragment <==> fragmentCount > 0)
      modifies this`incomingReliableSequenceNumber, this`incomingReliableCommands, this`dispatchedCommands
      ensures Queueing(State(), ok, position) == QueueIncoming(old(State()), s, isFragment, fragmentCount, data)
    {
      hide Scan, Dispatch, Clear, Drained, EntryOk;
      if disconnectLater { return fragmentCount == 0, 0; }
      var reliableWindow := s / WINDOW_SIZE;
      var currentWindow := incomingReliableSequenceNumber / WINDOW_SIZE;
      if s < incomingReliableSequenceNumber { reliableWindow := reliableWindow + WINDOWS; }
      if reliableWindow < currentWindow || reliableWindow >= currentWindow + FREE_WINDOWS - 1 {
        return fragmentCount == 0, 0;
      }
      if s == incomingReliableSequenceNumber { return fragmentCount == 0, 0; }
      var place := FindPlace(s);
      if place.Duplicate? { return fragmentCount == 0, 0; }
      position := place.position;
      var entry := NewEntry(s, isFragment, fragmentCount, data);
      incomingReliableCommands := incomingReliableCommands[..position] + [entry] + incomingReliableCommands[position..];
      DispatchIncomingReliableCommands();
      ok := true;
    }

    /** enet_peer_queue_acknowledgement, which follows once the command has been handled. */
    method QueueAcknowledgement(s: Sequence) returns (queued: bool)
      modifies this`acknowledgements
      ensures queued <==> Acknowledges(State(), s)
      ensures acknowledgements == old(acknowledgements) + if queued then [s] else []
    {
      var reliableWindow := s / WINDOW_SIZE;
      var currentWindow := incomingReliableSequenceNumber / WINDOW_SIZE;
      if s < incomingReliableSequenceNumber { reliableWindow := reliableWindow + WINDOWS; }
      if currentWindow + FREE_WINDOWS - 1 <= reliableWindow <= currentWindow + FREE_WINDOWS { return false; }
      acknowledgements := acknowledgements + [s];
      queued := true;
    }

    /** enet_protocol_handle_send_reliable */
    method HandleSendReliable(c: Command) returns (ok: bool)
      requires Valid(State()) && c.Reliable?
      modifies this`incomingReliableSequenceNumber, this`incomingReliableCommands, this`dispatchedCommands
      ensures Handled(State(), ok) == HandleReliable(old(State()), c)
    {
      var position;
      ok, position := QueueIncomingCommand(c.sequence, false, 0, c.data);
    }

    /** enet_protocol_handle_send_fragment */
    method HandleSendFragment(f: Command, blank: seq<Byte>) returns (ok: bool)
      requires Valid(State()) && f.Fragment? && |blank| == f.total
      modifies this`incomingReliableSequenceNumber, this`incomingReliableCommands, this`dispatchedCommands
      ensures Handled(State(), ok) == HandleFragment(old(State()), f, blank)
    {
      hide Scan, Dispatch, Clear;
      if !InWindow(incomingReliableSequenceNumber, f.start) { return true; }
      if f.offset >= f.total || f.offset + |f.data| > f.total || f.number >= f.count { return false; }
      var place := FindPlace(f.start);
      var j := place.position;
      if place.Duplicate? {
        var found := incomingReliableCommands[j];
        if !found.isFragment || |found.data| != f.total || found.fragmentCount != f.count { return false; }
      } else {
        ok, j := QueueIncomingCommand(f.start, true, f.count, blank);
        if !ok { return; }
      }
      var e := incomingReliableCommands[j];
      if !e.fragments[f.number] {
        ClearAfterMark(e.fragments, f.number);
        incomingReliableCommands := incomingReliableCommands[j := Marked(e, f)];
        if e.fragmentsRemaining - 1 <= 0 {
          DispatchIncomingReliableCommands();
        }
      }
      ok := true;
    }
  }
}
