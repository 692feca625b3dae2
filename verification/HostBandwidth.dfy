/** Sharing a host's bandwidth between its peers (enet/host.c), in exact arithmetic. */
module HostBandwidth {
  import opened Division

  const THROTTLE_INTERVAL: nat := 1000
  const THROTTLE_SCALE: nat := 32
  const UNLIMITED: nat := 0xFFFF_FFFF
  const TIME_SPACE: nat := 0x1_0000_0000

  /** The part of ENetPeer the throttle uses; connected also stands for disconnecting later. */
  datatype Peer = Peer(
    connected: bool, incomingBandwidth: nat, outgoingBandwidth: nat,
    incomingDataTotal: nat, outgoingDataTotal: nat,
    packetThrottle: nat, packetThrottleLimit: nat,
    outgoingEpoch: nat, incomingEpoch: nat)

  /** A bandwidth limit command for a peer. */
  datatype Limit = Limit(peer: nat, outgoing: nat, incoming: nat)

  ghost function Sum(ps: seq<Peer>, f: Peer -> int): int {
    if ps == [] then 0 else Sum(ps[..|ps| - 1], f) + f(ps[|ps| - 1])
  }

  lemma {:induction false} SumUpdate(ps: seq<Peer>, f: Peer -> int, k: nat, p: Peer)
    requires k < |ps|
    ensures Sum(ps[k := p], f) == Sum(ps, f) - f(ps[k]) + f(p)
  {
    var n := |ps| - 1;
    if k == n {
      assert ps[k := p][..n] == ps[..n];
    } else {
      assert ps[k := p][..n] == ps[..n][k := p];
      SumUpdate(ps[..n], f, k, p);
    }
  }

  lemma {:induction false} SumBounds(ps: seq<Peer>, f: Peer -> int, g: Peer -> int)
    requires forall p :: 0 <= f(p) <= g(p)
    ensures 0 <= Sum(ps, f) <= Sum(ps, g)
  {
    if ps != [] { SumBounds(ps[..|ps| - 1], f, g); }
  }

  lemma {:induction false} SumHasTerm(ps: seq<Peer>, f: Peer -> int, k: nat)
    requires k < |ps| && forall p :: 0 <= f(p)
    ensures f(ps[k]) <= Sum(ps, f)
  {
    var n := |ps| - 1;
    if k < n {
      assert ps[..n][k] == ps[k];
      SumHasTerm(ps[..n], f, k);
    } else {
      SumBounds(ps[..n], f, f);
    }
  }

  /** A peer whose share is not settled at this time. */
  ghost predicate Open(p: Peer, time: nat) {
    p.connected && p.outgoingEpoch != time
  }

  /** The most a peer can take in over a time. */
  ghost function Share(p: Peer, elapsed: nat): nat {
    p.incomingBandwidth * elapsed / 1000
  }

  /** What a peer is sent at a throttle. */
  ghost function Throttled(throttle: nat, data: nat): nat {
    throttle * data / THROTTLE_SCALE
  }

  ghost function OpenData(time: nat): Peer -> int {
    (p: Peer) => if Open(p, time) then p.outgoingDataTotal else 0
  }

  ghost function OpenCount(time: nat): Peer -> int {
    (p: Peer) => if Open(p, time) then 1 else 0
  }

  ghost function Settled(time: nat, elapsed: nat): Peer -> int {
    (p: Peer) => if p.connected && p.outgoingEpoch == time then Share(p, elapsed) else 0
  }

  ghost function OpenThrottled(time: nat, throttle: nat): Peer -> int {
    (p: Peer) => if Open(p, time) then Throttled(throttle, p.outgoingDataTotal) else 0
  }

  ghost function ConnectedData(p: Peer): int {
    if p.connected then p.outgoingDataTotal else 0
  }

  ghost function ConnectedCount(p: Peer): int {
    if p.connected then 1 else 0
  }

  lemma {:induction false} SumThrottled(ps: seq<Peer>, time: nat, throttle: nat)
    ensures THROTTLE_SCALE * Sum(ps, OpenThrottled(time, throttle)) <= throttle * Sum(ps, OpenData(time))
  {
    if ps != [] {
      var n := |ps| - 1;
      SumThrottled(ps[..n], time, throttle);
      var d := OpenData(time)(ps[n]);
      assert throttle * (Sum(ps[..n], OpenData(time)) + d) == throttle * Sum(ps[..n], OpenData(time)) + throttle * d;
    }
  }

  /** The data fits the bandwidth at the throttle t, and would not at the next one, if there is one. */
  ghost predicate Greatest(t: nat, bandwidth: int, data: int) {
    && t <= THROTTLE_SCALE && t * data <= THROTTLE_SCALE * bandwidth
    && (t == THROTTLE_SCALE || (t + 1) * data > THROTTLE_SCALE * bandwidth)
  }

  /** The greatest throttle at which the data to send fits the bandwidth. */
  function FairThrottle(bandwidth: nat, data: nat): (t: nat)
    requires bandwidth > 0 || data > 0
    ensures Greatest(t, bandwidth, data)
  {
    hide Greatest;
    if data < bandwidth then
      AllFits(bandwidth, data);
      THROTTLE_SCALE
    else
      FairBound(bandwidth, data);
      bandwidth * THROTTLE_SCALE / data
  }

  lemma AllFits(bandwidth: nat, data: nat)
    requires data < bandwidth
    ensures Greatest(THROTTLE_SCALE, bandwidth, data)
  {
  }

  lemma FairBound(bandwidth: nat, data: nat)
    requires 0 < data && bandwidth <= data
    ensures Greatest(bandwidth * THROTTLE_SCALE / data, bandwidth, data)
  {
    QuotientBounds(bandwidth * THROTTLE_SCALE, data);
    Cancel(bandwidth * THROTTLE_SCALE / data, THROTTLE_SCALE, data);
  }

  lemma Cancel(a: nat, b: nat, d: nat)
    requires 0 < d && a * d <= b * d
    ensures a <= b
  {
  }

  ghost function AtLeastOne(n: nat): nat {
    if n == 0 then 1 else n
  }

  ghost function AtMost(n: nat, limit: nat): nat {
    if n > limit then limit else n
  }

  /** A peer held to what it can take in. */
  ghost function Settle(p: Peer, time: nat, elapsed: nat): Peer
    requires 0 < p.outgoingDataTotal
  {
    var limit := AtLeastOne(Share(p, elapsed) * THROTTLE_SCALE / p.outgoingDataTotal);
    p.(packetThrottleLimit := limit, packetThrottle := AtMost(p.packetThrottle, limit), outgoingEpoch := time)
  }

  /** A peer that would be sent more than it can take in. */
  ghost predicate Exceeds(p: Peer, time: nat, elapsed: nat, throttle: nat) {
    Open(p, time) && p.incomingBandwidth != 0 && Throttled(throttle, p.outgoingDataTotal) > Share(p, elapsed)
  }

  /** No peer would be sent more than it can take in if nothing is held back. */
  ghost predicate NoneOver(ps: seq<Peer>, time: nat, elapsed: nat) {
    forall k :: 0 <= k < |ps| ==> !Exceeds(ps[k], time, elapsed, THROTTLE_SCALE)
  }

  /** Where peers are left over, the throttle is the greatest at which their data fits what the settled shares leave;
      and a host that can send everything holds nothing back. */
  ghost predicate FairlyShared(was: seq<Peer>, ps: seq<Peer>, time: nat, elapsed: nat, throttle: nat, budget: nat) {
    var data, settled := Sum(was, ConnectedData), Sum(ps, Settled(time, elapsed)) - Sum(was, Settled(time, elapsed));
    && ((exists k :: 0 <= k < |ps| && Open(ps[k], time)) ==> Greatest(throttle, budget - settled, data - settled))
    && (data < budget && NoneOver(was, time, elapsed) ==> throttle == THROTTLE_SCALE)
  }

  /** Peers below the limit keep their own bandwidth, and where others are left over, the limit they are told is an
      equal part of what that leaves. */
  ghost predicate FairlyGranted(was: seq<Peer>, ps: seq<Peer>, time: nat, limit: nat, incoming: nat) {
    var left := Sum(ps, UngrantedCount(time)) + Sum(was, ConnectedCount) - Sum(was, UngrantedCount(time));
    && SmallGranted(was, ps, time, limit)
    && (incoming > 0 && (exists k :: 0 <= k < |ps| && Ungranted(ps[k], time)) ==>
      left > 0 && limit == (incoming - (Sum(ps, Granted(time)) - Sum(was, Granted(time)))) / left)
  }

  /** What settling one peer does to the sums, and how little of its demand its share is. */
  lemma SettleSums(ps: seq<Peer>, k: nat, time: nat, elapsed: nat, throttle: nat)
    requires k < |ps| && Exceeds(ps[k], time, elapsed, throttle) && throttle <= THROTTLE_SCALE
    ensures 0 < ps[k].outgoingDataTotal
    ensures var (p, q) := (ps[k], ps[k := Settle(ps[k], time, elapsed)]);
      && Sum(q, OpenData(time)) == Sum(ps, OpenData(time)) - p.outgoingDataTotal
      && Sum(q, OpenCount(time)) == Sum(ps, OpenCount(time)) - 1
      && Sum(q, Settled(time, elapsed)) == Sum(ps, Settled(time, elapsed)) + Share(p, elapsed)
      && THROTTLE_SCALE * Share(p, elapsed) <= throttle * p.outgoingDataTotal
      && Share(p, elapsed) < p.outgoingDataTotal
  {
    hide Sum, Share;
    var p := ps[k];
    var p' := Settle(p, time, elapsed);
    SumUpdate(ps, OpenData(time), k, p');
    SumUpdate(ps, OpenCount(time), k, p');
    SumUpdate(ps, Settled(time, elapsed), k, p');
    assert Share(p', elapsed) == Share(p, elapsed) by { ShareKept(p, p', elapsed); }
    assert throttle * p.outgoingDataTotal <= THROTTLE_SCALE * p.outgoingDataTotal;
  }

  lemma ShareKept(p: Peer, q: Peer, elapsed: nat)
    requires p.incomingBandwidth == q.incomingBandwidth
    ensures Share(p, elapsed) == Share(q, elapsed)
  {
  }

  /** Every peer is as it was, or was settled at a higher demand than its share. */
  ghost predicate Passed(was: seq<Peer>, ps: seq<Peer>, time: nat, elapsed: nat) {
    && |was| == |ps|
    && forall k {:trigger ps[k]} :: 0 <= k < |ps| ==> ps[k] == was[k] || SettledFrom(was[k], ps[k], time, elapsed)
  }

  ghost predicate SettledFrom(p: Peer, q: Peer, time: nat, elapsed: nat) {
    && Open(p, time) && p.incomingBandwidth != 0 && Share(p, elapsed) < p.outgoingDataTotal
    && q == Settle(p, time, elapsed)
  }

  /** ENetHost */
  class Host {
    const peers: array<Peer>
    var incomingBandwidth: nat
    var outgoingBandwidth: nat
    var bandwidthThrottleEpoch: nat
    var recalculateBandwidthLimits: bool

    constructor (peers: array<Peer>, incomingBandwidth: nat, outgoingBandwidth: nat)
      ensures this.peers == peers && this.incomingBandwidth == incomingBandwidth
        && this.outgoingBandwidth == outgoingBandwidth
      ensures bandwidthThrottleEpoch == 0 && !recalculateBandwidthLimits
    {
      this.peers := peers;
      this.incomingBandwidth, this.outgoingBandwidth := incomingBandwidth, outgoingBandwidth;
      bandwidthThrottleEpoch, recalculateBandwidthLimits := 0, false;
    }

    /** One pass of the first adjustment loop. */
    method OutgoingPass(time: nat, elapsed: nat, throttle: nat, remaining: nat, bandwidth: nat, data: nat)
      returns (adjusted: bool, remaining': nat, bandwidth': nat, data': nat)
      requires throttle <= THROTTLE_SCALE && throttle * data <= THROTTLE_SCALE * bandwidth
      requires Sum(peers[..], OpenData(time)) <= data && Sum(peers[..], OpenCount(time)) <= remaining
      modifies peers
      ensures Passed(old(peers[..]), peers[..], time, elapsed)
      ensures bandwidth' + Sum(peers[..], Settled(time, elapsed)) ==
        bandwidth + old(Sum(peers[..], Settled(time, elapsed)))
      ensures bandwidth - bandwidth' == data - data'
      ensures Sum(peers[..], OpenData(time)) + (if adjusted then 1 else 0) <= data'
      ensures remaining' - Sum(peers[..], OpenCount(time)) == remaining - old(Sum(peers[..], OpenCount(time)))
      ensures adjusted ==> Sum(peers[..], OpenCount(time)) < old(Sum(peers[..], OpenCount(time)))
      ensures !adjusted ==> peers[..] == old(peers[..]) && bandwidth' == bandwidth && data' == data
      ensures adjusted <==> exists k :: 0 <= k < peers.Length && Exceeds(old(peers[k]), time, elapsed, throttle)
      ensures forall k :: 0 <= k < peers.Length ==> if Exceeds(old(peers[k]), time, elapsed, throttle)
        then SettledFrom(old(peers[k]), peers[k], time, elapsed) else peers[k] == old(peers[k])
    {
      hide Sum, Share;
      adjusted, remaining', bandwidth', data' := false, remaining, bandwidth, data;
      ghost var was := peers[..];
      ghost var demand := Sum(was, OpenData(time));
      var k := 0;
      while k < peers.Length
        invariant k <= peers.Length && Passed(was, peers[..], time, elapsed)
        invariant forall j :: k <= j < peers.Length ==> peers[j] == was[j]
        invariant bandwidth' + Sum(peers[..], Settled(time, elapsed)) == bandwidth + Sum(was, Settled(time, elapsed))
        invariant bandwidth - bandwidth' == data - data'
        invariant THROTTLE_SCALE * (bandwidth - bandwidth') <= throttle * (demand - Sum(peers[..], OpenData(time)))
        invariant Sum(peers[..], OpenData(time)) + (if adjusted then 1 else 0) <= data'
        invariant remaining' - Sum(peers[..], OpenCount(time)) == remaining - Sum(was, OpenCount(time))
        invariant if adjusted then Sum(peers[..], OpenCount(time)) < Sum(was, OpenCount(time)) else peers[..] == was
        invariant !adjusted ==> bandwidth' == bandwidth
        invariant adjusted <==> exists j :: 0 <= j < k && Exceeds(was[j], time, elapsed, throttle)
        invariant forall j :: 0 <= j < k ==> if Exceeds(was[j], time, elapsed, throttle)
          then SettledFrom(was[j], peers[j], time, elapsed) else peers[j] == was[j]
      {
        var p := peers[k];
        if !p.connected || p.incomingBandwidth == 0 || p.outgoingEpoch == time {
          k := k + 1;
          continue;
        }
        var share := PeerBandwidth(p, elapsed);
        if throttle * p.outgoingDataTotal / THROTTLE_SCALE <= share {
          k := k + 1;
          continue;
        }
        SettleSums(peers[..], k, time, elapsed, throttle);
        OpenSums(peers[..][k := Settle(p, time, elapsed)], time);
        SettleBudget(throttle, demand, Sum(peers[..], OpenData(time)), p.outgoingDataTotal, share, bandwidth,
          bandwidth', data);
        ghost var q := peers[..][k := Settle(p, time, elapsed)];
        peers[k] := SettlePeer(p, share, time, elapsed);
        assert peers[..] == q;
        adjusted := true;
        remaining' := remaining' - 1;
        bandwidth' := bandwidth' - share;
        data' := data' - share;
        k := k + 1;
      }
    }

    /** What a peer takes in over the time. */
    method PeerBandwidth(p: Peer, elapsed: nat) returns (share: nat)
      ensures share == Share(p, elapsed)
    {
      share := p.incomingBandwidth * elapsed / 1000;
    }

    /** The new limit of a peer that is held to its share. */
    method SettlePeer(p: Peer, share: nat, time: nat, elapsed: nat) returns (q: Peer)
      requires 0 < p.outgoingDataTotal && share == Share(p, elapsed)
      ensures q == Settle(p, time, elapsed)
    {
      hide Share;
      var limit := share * THROTTLE_SCALE / p.outgoingDataTotal;
      if limit == 0 { limit := 1; }
      q := p.(packetThrottleLimit := limit, outgoingEpoch := time);
      if q.packetThrottle > limit { q := q.(packetThrottle := limit); }
    }

    /** The peers to share between, and the data they were sent. */
    method Totals() returns (peersTotal: nat, dataTotal: nat)
      ensures peersTotal == Sum(peers[..], ConnectedCount) && dataTotal == Sum(peers[..], ConnectedData)
    {
      peersTotal, dataTotal := 0, 0;
      for k := 0 to peers.Length
        invariant peersTotal == Sum(peers[..k], ConnectedCount) && dataTotal == Sum(peers[..k], ConnectedData)
      {
        assert peers[..k + 1][..k] == peers[..k];
        if peers[k].connected {
          peersTotal := peersTotal + 1;
          dataTotal := dataTotal + peers[k].outgoingDataTotal;
        }
      }
      assert peers[..peers.Length] == peers[..];
    }

    /** What the host may send in a time. */
    ghost function Budget(elapsed: nat): nat
      reads this
    {
      if outgoingBandwidth == 0 then UNLIMITED else outgoingBandwidth * elapsed / 1000
    }

    /** The first adjustment loop: passes until no peer is sent more than it can take in. */
    method SettleOutgoing(time: nat, elapsed: nat, peersTotal: nat, dataTotal: nat)
        returns (throttle: nat, remaining: nat)
      requires 1000 <= elapsed && 0 < peersTotal
      requires peersTotal == Sum(peers[..], ConnectedCount) && dataTotal == Sum(peers[..], ConnectedData)
      modifies peers
      ensures throttle <= THROTTLE_SCALE && Passed(old(peers[..]), peers[..], time, elapsed)
      ensures Sum(peers[..], Settled(time, elapsed)) + Sum(peers[..], OpenThrottled(time, throttle))
        <= Budget(elapsed) + old(Sum(peers[..], Settled(time, elapsed)))
      ensures var settled := Sum(peers[..], Settled(time, elapsed)) - old(Sum(peers[..], Settled(time, elapsed)));
        (exists k :: 0 <= k < peers.Length && Open(peers[k], time)) ==>
          Greatest(throttle, Budget(elapsed) - settled, dataTotal - settled)
      ensures dataTotal < Budget(elapsed) && NoneOver(old(peers[..]), time, elapsed) ==>
        throttle == THROTTLE_SCALE && peers[..] == old(peers[..])
      ensures forall k :: 0 <= k < peers.Length ==> !Exceeds(peers[k], time, elapsed, throttle)
      ensures remaining == 0 ==> forall k :: 0 <= k < peers.Length ==> !Open(peers[k], time)
    {
      hide Sum, Share;
      ghost var was := peers[..];
      OpenWithin(was, time);
      remaining := peersTotal;
      var bandwidth: nat, data: nat, adjusted := UNLIMITED, dataTotal, true;
      if outgoingBandwidth != 0 { bandwidth := outgoingBandwidth * elapsed / 1000; }
      BudgetPositive(outgoingBandwidth, elapsed);
      throttle := 0;
      while remaining > 0 && adjusted
        invariant Passed(was, peers[..], time, elapsed) && throttle <= THROTTLE_SCALE
        invariant bandwidth + Sum(peers[..], Settled(time, elapsed)) ==
          Budget(elapsed) + Sum(was, Settled(time, elapsed))
        invariant Sum(peers[..], OpenData(time)) <= data && Sum(peers[..], OpenCount(time)) <= remaining
        invariant bandwidth > 0 || data > 0
        invariant Budget(elapsed) - bandwidth == dataTotal - data
        invariant !adjusted ==> Greatest(throttle, bandwidth, data)
        invariant dataTotal < Budget(elapsed) && NoneOver(was, time, elapsed) ==>
          && peers[..] == was && data == dataTotal
          && if adjusted then remaining == peersTotal else throttle == THROTTLE_SCALE
        invariant !adjusted ==> forall k :: 0 <= k < peers.Length ==> !Exceeds(peers[k], time, elapsed, throttle)
        decreases if adjusted then 1 else 0, Sum(peers[..], OpenCount(time))
      {
        ghost var before := peers[..];
        throttle := FairThrottle(bandwidth, data);
        adjusted, remaining, bandwidth, data := OutgoingPass(time, elapsed, throttle, remaining, bandwidth, data);
        PassedThen(was, before, peers[..], time, elapsed);
        OpenSums(peers[..], time);
      }
      OpenSums(peers[..], time);
      if adjusted {
        NoneOpen(peers[..], time, throttle);
      } else {
        SumThrottled(peers[..], time, throttle);
        MulMono(throttle, Sum(peers[..], OpenData(time)), data);
      }
      forall k | 0 <= k < peers.Length && remaining == 0 ensures !Open(peers[k], time) {
        OpenCounted(peers[..], time, k);
      }
    }

    /** The peers left over get the last throttle. */
    method LimitOpen(time: nat, elapsed: nat, throttle: nat, ghost was: seq<Peer>)
      requires Passed(was, peers[..], time, elapsed)
      requires forall k :: 0 <= k < peers.Length ==> !Exceeds(peers[k], time, elapsed, throttle)
      modifies peers
      ensures |was| == peers.Length && forall k :: 0 <= k < |was| ==>
        Regulated(was[k], peers[k], time, elapsed, throttle)
      ensures Sum(peers[..], Settled(time, elapsed)) == old(Sum(peers[..], Settled(time, elapsed)))
      ensures Sum(peers[..], OpenThrottled(time, throttle)) == old(Sum(peers[..], OpenThrottled(time, throttle)))
      ensures forall k :: 0 <= k < peers.Length ==> (Open(peers[k], time) <==> Open(old(peers[k]), time))
    {
      hide Sum, Share;
      ghost var mid := peers[..];
      var k := 0;
      while k < peers.Length
        invariant k <= peers.Length && forall j :: k <= j < peers.Length ==> peers[j] == mid[j]
        invariant forall j :: 0 <= j < k ==> Regulated(was[j], peers[j], time, elapsed, throttle)
        invariant Sum(peers[..], Settled(time, elapsed)) == Sum(mid, Settled(time, elapsed))
        invariant Sum(peers[..], OpenThrottled(time, throttle)) == Sum(mid, OpenThrottled(time, throttle))
        invariant forall j :: 0 <= j < peers.Length ==> (Open(peers[j], time) <==> Open(mid[j], time))
      {
        var p := peers[k];
        assert mid[k] == was[k] || SettledFrom(was[k], mid[k], time, elapsed);
        if p.connected && p.outgoingEpoch != time {
          var q := p.(packetThrottleLimit := throttle);
          if q.packetThrottle > throttle { q := q.(packetThrottle := throttle); }
          SumUpdate(peers[..], Settled(time, elapsed), k, q);
          SumUpdate(peers[..], OpenThrottled(time, throttle), k, q);
          ghost var ps := peers[..][k := q];
          peers[k] := q;
          assert peers[..] == ps;
        }
        k := k + 1;
      }
    }

    /** The outgoing half: what is sent to all the peers fits the host's bandwidth, and what is sent to a
        peer fits its own. */
    method ShareOutgoing(time: nat, elapsed: nat, peersTotal: nat, dataTotal: nat) returns (throttle: nat)
      requires 1000 <= elapsed && 0 < peersTotal
      requires peersTotal == Sum(peers[..], ConnectedCount) && dataTotal == Sum(peers[..], ConnectedData)
      modifies peers
      ensures forall k :: 0 <= k < peers.Length ==> Regulated(old(peers[k]), peers[k], time, elapsed, throttle)
      ensures Sum(peers[..], Settled(time, elapsed)) + Sum(peers[..], OpenThrottled(time, throttle))
        <= Budget(elapsed) + old(Sum(peers[..], Settled(time, elapsed)))
      ensures FairlyShared(old(peers[..]), peers[..], time, elapsed, throttle, Budget(elapsed))
    {
      hide Sum, Share;
      ghost var was := peers[..];
      var remaining;
      throttle, remaining := SettleOutgoing(time, elapsed, peersTotal, dataTotal);
      if remaining > 0 {
        LimitOpen(time, elapsed, throttle, was);
      } else {
        forall k | 0 <= k < peers.Length ensures Regulated(was[k], peers[k], time, elapsed, throttle) {
          assert peers[..][k] == was[k] || SettledFrom(was[k], peers[..][k], time, elapsed);
          assert !Open(peers[k], time);
        }
      }
    }

    /** One pass of the second adjustment loop: a peer that sends no more than the limit keeps its own. */
    method IncomingPass(time: nat, limit: nat, remaining: nat, bandwidth: nat)
      returns (adjusted: bool, remaining': nat, bandwidth': nat)
      requires Sum(peers[..], UngrantedCount(time)) <= remaining && limit * remaining <= bandwidth
      modifies peers
      ensures SameButMarks(old(peers[..]), peers[..])
      ensures bandwidth' + Sum(peers[..], Granted(time)) == bandwidth + old(Sum(peers[..], Granted(time)))
      ensures Sum(peers[..], UngrantedCount(time)) <= remaining'
      ensures remaining' - Sum(peers[..], UngrantedCount(time)) ==
        remaining - old(Sum(peers[..], UngrantedCount(time)))
      ensures adjusted ==> Sum(peers[..], UngrantedCount(time)) < old(Sum(peers[..], UngrantedCount(time)))
      ensures forall k :: 0 <= k < peers.Length ==>
        peers[k] == old(peers[k]).(incomingEpoch :=
          if Small(old(peers[k]), time, limit) then time else old(peers[k]).incomingEpoch)
      ensures limit * remaining' <= bandwidth'
      ensures !adjusted ==> remaining' == remaining && bandwidth' == bandwidth
      ensures !adjusted ==> forall k :: 0 <= k < peers.Length && Ungranted(peers[k], time) ==>
        0 < peers[k].outgoingBandwidth && limit <= peers[k].outgoingBandwidth
    {
      hide Sum;
      adjusted, remaining', bandwidth' := false, remaining, bandwidth;
      ghost var was := peers[..];
      var k := 0;
      while k < peers.Length
        invariant k <= peers.Length && SameButMarks(was, peers[..])
        invariant forall j :: 0 <= j < peers.Length ==> peers[j] == was[j].(incomingEpoch :=
          if j < k && Small(was[j], time, limit) then time else was[j].incomingEpoch)
        invariant bandwidth' + Sum(peers[..], Granted(time)) == bandwidth + Sum(was, Granted(time))
        invariant Sum(peers[..], UngrantedCount(time)) <= remaining' && limit * remaining' <= bandwidth'
        invariant remaining' - Sum(peers[..], UngrantedCount(time)) == remaining - Sum(was, UngrantedCount(time))
        invariant if adjusted then Sum(peers[..], UngrantedCount(time)) < Sum(was, UngrantedCount(time))
          else peers[..] == was
        invariant !adjusted ==> remaining' == remaining && bandwidth' == bandwidth
        invariant !adjusted ==> forall j :: 0 <= j < k && Ungranted(peers[j], time) ==>
          0 < peers[j].outgoingBandwidth && limit <= peers[j].outgoingBandwidth
      {
        var p := peers[k];
        if !p.connected || p.incomingEpoch == time || (p.outgoingBandwidth > 0 && p.outgoingBandwidth >= limit) {
          k := k + 1;
          continue;
        }
        ghost var ps := peers[..][k := p.(incomingEpoch := time)];
        SumUpdate(peers[..], Granted(time), k, p.(incomingEpoch := time));
        SumUpdate(peers[..], UngrantedCount(time), k, p.(incomingEpoch := time));
        SumBounds(ps, UngrantedCount(time), UngrantedCount(time));
        peers[k] := p.(incomingEpoch := time);
        assert peers[..] == ps;
        StillCovered(limit, remaining', bandwidth', p.outgoingBandwidth);
        adjusted := true;
        remaining' := remaining' - 1;
        bandwidth' := bandwidth' - p.outgoingBandwidth;
        k := k + 1;
      }
    }

    /** The second adjustment loop: what all peers together may send the host fits what it takes in. */
    method GrantIncoming(time: nat, peersTotal: nat) returns (limit: nat)
      requires peersTotal == Sum(peers[..], ConnectedCount)
      modifies peers
      ensures SameButMarks(old(peers[..]), peers[..])
      ensures Sum(peers[..], Granted(time)) + limit * Sum(peers[..], UngrantedCount(time))
        <= incomingBandwidth + old(Sum(peers[..], Granted(time)))
      ensures incomingBandwidth > 0 ==> forall k :: 0 <= k < peers.Length && Ungranted(peers[k], time) ==>
        0 < peers[k].outgoingBandwidth && limit <= peers[k].outgoingBandwidth
      ensures FairlyGranted(old(peers[..]), peers[..], time, limit, incomingBandwidth)
    {
      hide Sum;
      limit := 0;
      var remaining, bandwidth: nat, adjusted := peersTotal, incomingBandwidth, true;
      ghost var was := peers[..];
      if bandwidth == 0 { return; }
      SumBounds(was, UngrantedCount(time), ConnectedCount);
      while remaining > 0 && adjusted
        invariant SameButMarks(was, peers[..])
        invariant bandwidth + Sum(peers[..], Granted(time)) == incomingBandwidth + Sum(was, Granted(time))
        invariant Sum(peers[..], UngrantedCount(time)) <= remaining
        invariant remaining - Sum(peers[..], UngrantedCount(time)) == peersTotal - Sum(was, UngrantedCount(time))
        invariant !adjusted ==> remaining > 0 && limit == bandwidth / remaining
        invariant SmallGranted(was, peers[..], time, limit) && limit * remaining <= bandwidth
        invariant !adjusted ==> forall k :: 0 <= k < peers.Length && Ungranted(peers[k], time) ==>
          0 < peers[k].outgoingBandwidth && limit <= peers[k].outgoingBandwidth
        decreases if adjusted then 1 else 0, Sum(peers[..], UngrantedCount(time))
      {
        QuotientGrows(limit, bandwidth, remaining);
        limit := bandwidth / remaining;
        assert limit * remaining <= bandwidth;
        adjusted, remaining, bandwidth := IncomingPass(time, limit, remaining, bandwidth);
        SumBounds(peers[..], UngrantedCount(time), UngrantedCount(time));
      }
      SumBounds(peers[..], UngrantedCount(time), UngrantedCount(time));
      if adjusted {
        assert limit * 0 == 0;
        forall k | 0 <= k < peers.Length ensures !Ungranted(peers[k], time) {
          SumHasTerm(peers[..], UngrantedCount(time), k);
        }
      } else {
        MulMono(limit, Sum(peers[..], UngrantedCount(time)), remaining);
      }
    }

    /** The commands that tell the peers. */
    method SendLimits(time: nat, limit: nat) returns (limits: seq<Limit>)
      ensures limits == Commands(peers[..], time, limit, outgoingBandwidth)
    {
      limits := [];
      for k := 0 to peers.Length
        invariant limits == Commands(peers[..k], time, limit, outgoingBandwidth)
      {
        assert peers[..k + 1][..k] == peers[..k];
        if peers[k].connected {
          var incoming := if peers[k].incomingEpoch == time then peers[k].outgoingBandwidth else limit;
          limits := limits + [Limit(k, outgoingBandwidth, incoming)];
        }
      }
      assert peers[..peers.Length] == peers[..];
    }

    /** The half of enet_host_bandwidth_throttle that tells every peer what it may send. */
    method Regrant(time: nat, peersTotal: nat) returns (limits: seq<Limit>, limit: nat)
      requires peersTotal == Sum(peers[..], ConnectedCount)
      modifies peers
      ensures SameButMarks(old(peers[..]), peers[..])
      ensures limits == Commands(peers[..], time, limit, outgoingBandwidth)
      ensures TotalGranted(limits) <= incomingBandwidth + old(Sum(peers[..], Granted(time)))
      ensures incomingBandwidth > 0 ==> forall k :: 0 <= k < peers.Length && Ungranted(peers[k], time) ==>
        0 < peers[k].outgoingBandwidth && limit <= peers[k].outgoingBandwidth
      ensures FairlyGranted(old(peers[..]), peers[..], time, limit, incomingBandwidth)
    {
      limit := GrantIncoming(time, peersTotal);
      limits := SendLimits(time, limit);
      GrantTotal(peers[..], time, limit, outgoingBandwidth);
    }

    /** enet_host_bandwidth_throttle. shared is what the peers were left at before their totals restart. */
    method BandwidthThrottle(timeCurrent: nat)
        returns (limits: seq<Limit>, ghost throttle: nat, ghost shared: seq<Peer>, ghost limit: nat)
      requires timeCurrent < TIME_SPACE
      modifies this`bandwidthThrottleEpoch, this`recalculateBandwidthLimits, peers
      ensures var elapsed := (timeCurrent - old(bandwidthThrottleEpoch)) % TIME_SPACE;
        if elapsed < THROTTLE_INTERVAL || (forall k :: 0 <= k < peers.Length ==> !old(peers[k]).connected) then
          peers[..] == old(peers[..]) && limits == [] && bandwidthThrottleEpoch == old(bandwidthThrottleEpoch)
        else
          && |shared| == peers.Length
          && (forall k :: 0 <= k < |shared| ==> Regulated(old(peers[k]), shared[k], timeCurrent, elapsed, throttle))
          && Sum(shared, Settled(timeCurrent, elapsed)) + Sum(shared, OpenThrottled(timeCurrent, throttle))
             <= Budget(elapsed) + Sum(old(peers[..]), Settled(timeCurrent, elapsed))
          && FairlyShared(old(peers[..]), shared, timeCurrent, elapsed, throttle, Budget(elapsed))
          && (forall k :: 0 <= k < |shared| ==>
            peers[k] == Restarted(shared[k]).(incomingEpoch := peers[k].incomingEpoch))
          && (if old(recalculateBandwidthLimits) then
               && limits == Commands(peers[..], timeCurrent, limit, outgoingBandwidth)
               && (incomingBandwidth > 0 ==> forall k :: 0 <= k < peers.Length && Ungranted(peers[k], timeCurrent) ==>
                    0 < peers[k].outgoingBandwidth && limit <= peers[k].outgoingBandwidth)
               && TotalGranted(limits) <= incomingBandwidth + Sum(old(peers[..]), Granted(timeCurrent))
               && FairlyGranted(shared, peers[..], timeCurrent, limit, incomingBandwidth)
             else
               limits == [] && forall k :: 0 <= k < peers.Length ==>
                 peers[k].incomingEpoch == old(peers[k]).incomingEpoch)
          && bandwidthThrottleEpoch == timeCurrent && !recalculateBandwidthLimits
    {
      hide Sum, Share, Commands, TotalGranted, FairlyShared, FairlyGranted;
      limits, throttle, shared, limit := [], 0, [], 0;
      ghost var was := peers[..];
      var elapsed := (timeCurrent - bandwidthThrottleEpoch) % TIME_SPACE;
      if elapsed < THROTTLE_INTERVAL { return; }
      var peersTotal, dataTotal := Totals();
      AnyConnected(was);
      if peersTotal == 0 { return; }
      var t := ShareOutgoing(timeCurrent, elapsed, peersTotal, dataTotal);
      throttle, shared := t, peers[..];
      SameMarks(was, shared, timeCurrent, elapsed, throttle);
      if recalculateBandwidthLimits {
        recalculateBandwidthLimits := false;
        limits, limit := Regrant(timeCurrent, peersTotal);
      }
      bandwidthThrottleEpoch := timeCurrent;
      ghost var granted := peers[..];
      Restart();
      CommandsKept(granted, peers[..], timeCurrent, limit, outgoingBandwidth);
      if FairlyGranted(shared, granted, timeCurrent, limit, incomingBandwidth) {
        StillGranted(shared, granted, peers[..], timeCurrent, limit, incomingBandwidth);
      }
    }

    /** The totals of every peer start again. */
    method Restart()
      modifies peers
      ensures forall k :: 0 <= k < peers.Length ==> peers[k] == Restarted(old(peers[k]))
    {
      var k := 0;
      while k < peers.Length
        invariant k <= peers.Length && forall j :: 0 <= j < peers.Length ==>
          peers[j] == if j < k then Restarted(old(peers[j])) else old(peers[j])
      {
        peers[k] := peers[k].(incomingDataTotal := 0, outgoingDataTotal := 0);
        k := k + 1;
      }
    }
  }

  ghost function Restarted(p: Peer): Peer {
    p.(incomingDataTotal := 0, outgoingDataTotal := 0)
  }

  /** What becomes of a peer: nothing unless it is connected and not settled yet; then it is held to what
      it takes in, or gets the common throttle, which it can take. */
  ghost predicate Regulated(p: Peer, q: Peer, time: nat, elapsed: nat, throttle: nat) {
    if !Open(p, time) then q == p
    else
      || SettledFrom(p, q, time, elapsed)
      || (!Exceeds(p, time, elapsed, throttle)
        && q == p.(packetThrottleLimit := throttle, packetThrottle := AtMost(p.packetThrottle, throttle)))
  }

  /** What a peer is sent at its new limit fits what it takes in, but for the least limit there is. */
  lemma RegulatedFits(p: Peer, q: Peer, time: nat, elapsed: nat, throttle: nat)
    requires Open(p, time) && p.incomingBandwidth != 0 && Regulated(p, q, time, elapsed, throttle)
    ensures Throttled(q.packetThrottleLimit, p.outgoingDataTotal) <= Share(p, elapsed) || q.packetThrottleLimit == 1
    ensures q.packetThrottle == if p.packetThrottle > q.packetThrottleLimit then q.packetThrottleLimit
      else p.packetThrottle
    ensures q.packetThrottleLimit == throttle || 1 <= q.packetThrottleLimit
    ensures q.packetThrottleLimit == throttle
      || (q.packetThrottleLimit + 1) * p.outgoingDataTotal > THROTTLE_SCALE * Share(p, elapsed)
  {
    hide Share;
    if SettledFrom(p, q, time, elapsed) {
      var scaled := Share(p, elapsed) * THROTTLE_SCALE;
      assert scaled / p.outgoingDataTotal * p.outgoingDataTotal <= scaled;
      assert (scaled / p.outgoingDataTotal + 1) * p.outgoingDataTotal > scaled;
    }
  }

  /** A host that can send everything, to peers that can take it, limits none of them. */
  lemma NothingHeldBack(p: Peer, q: Peer, time: nat, elapsed: nat)
    requires Open(p, time) && !Exceeds(p, time, elapsed, THROTTLE_SCALE)
    requires Regulated(p, q, time, elapsed, THROTTLE_SCALE)
    ensures q.packetThrottleLimit == THROTTLE_SCALE
    ensures p.packetThrottle <= THROTTLE_SCALE ==> q.packetThrottle == p.packetThrottle
  {
    hide Share;
  }

  /** A peer that is not told its own outgoing bandwidth. */
  /** A peer that sends less than the limit of a pass, or has none of its own. */
  ghost predicate Small(p: Peer, time: nat, limit: nat) {
    Ungranted(p, time) && (p.outgoingBandwidth == 0 || p.outgoingBandwidth < limit)
  }

  /** The peers granted since then are those below the limit. */
  ghost predicate SmallGranted(was: seq<Peer>, ps: seq<Peer>, time: nat, limit: nat) {
    |was| == |ps| && forall k :: 0 <= k < |ps| && Ungranted(was[k], time) && !Ungranted(ps[k], time) ==>
      Small(was[k], time, limit)
  }

  ghost predicate Ungranted(p: Peer, time: nat) {
    p.connected && p.incomingEpoch != time
  }

  ghost function UngrantedCount(time: nat): Peer -> int {
    (p: Peer) => if Ungranted(p, time) then 1 else 0
  }

  ghost function Granted(time: nat): Peer -> int {
    (p: Peer) => if p.connected && p.incomingEpoch == time then p.outgoingBandwidth else 0
  }

  lemma QuotientGrows(limit: nat, bandwidth: nat, remaining: nat)
    requires 0 < remaining && limit * remaining <= bandwidth
    ensures limit <= bandwidth / remaining
  {
    QuotientBounds(bandwidth, remaining);
    if bandwidth / remaining < limit { MulMono(remaining, bandwidth / remaining + 1, limit); }
  }

  ghost predicate SameButMarks(was: seq<Peer>, ps: seq<Peer>) {
    |was| == |ps| && forall k {:trigger ps[k]} :: 0 <= k < |ps| ==>
      ps[k] == was[k].(incomingEpoch := ps[k].incomingEpoch)
  }

  /** One command for every connected peer, with its own outgoing bandwidth or else the limit. */
  ghost function Commands(ps: seq<Peer>, time: nat, limit: nat, outgoing: nat): seq<Limit> {
    if ps == [] then []
    else
      var k := |ps| - 1;
      Commands(ps[..k], time, limit, outgoing) +
      if ps[k].connected
        then [Limit(k, outgoing, if ps[k].incomingEpoch == time then ps[k].outgoingBandwidth else limit)] else []
  }

  /** The commands do not depend on the peers' totals. */
  lemma {:induction false} CommandsKept(ps: seq<Peer>, qs: seq<Peer>, time: nat, limit: nat, outgoing: nat)
    requires |ps| == |qs| && forall k {:trigger qs[k]} :: 0 <= k < |ps| ==> qs[k] == Restarted(ps[k])
    ensures Commands(qs, time, limit, outgoing) == Commands(ps, time, limit, outgoing)
  {
    if ps != [] {
      CommandsKept(ps[..|ps| - 1], qs[..|ps| - 1], time, limit, outgoing);
    }
  }

  lemma {:induction false} GrantsKept(ps: seq<Peer>, qs: seq<Peer>, time: nat)
    requires |ps| == |qs| && forall k {:trigger qs[k]} :: 0 <= k < |ps| ==> qs[k] == Restarted(ps[k])
    ensures Sum(qs, UngrantedCount(time)) == Sum(ps, UngrantedCount(time))
    ensures Sum(qs, Granted(time)) == Sum(ps, Granted(time))
  {
    if ps != [] { GrantsKept(ps[..|ps| - 1], qs[..|ps| - 1], time); }
  }

  lemma StillGranted(was: seq<Peer>, ps: seq<Peer>, qs: seq<Peer>, time: nat, limit: nat, incoming: nat)
    requires FairlyGranted(was, ps, time, limit, incoming)
    requires |ps| == |qs| && forall k {:trigger qs[k]} :: 0 <= k < |ps| ==> qs[k] == Restarted(ps[k])
    ensures FairlyGranted(was, qs, time, limit, incoming)
  {
    hide Sum;
    GrantsKept(ps, qs, time);
    forall k | 0 <= k < |qs| && Ungranted(qs[k], time) ensures Ungranted(ps[k], time) {}
  }

  ghost function TotalGranted(limits: seq<Limit>): nat {
    if limits == [] then 0 else TotalGranted(limits[..|limits| - 1]) + limits[|limits| - 1].incoming
  }

  lemma {:induction false} GrantTotal(ps: seq<Peer>, time: nat, limit: nat, outgoing: nat)
    ensures TotalGranted(Commands(ps, time, limit, outgoing)) ==
      Sum(ps, Granted(time)) + limit * Sum(ps, UngrantedCount(time))
  {
    if ps == [] {
      assert limit * 0 == 0;
    } else {
      var k := |ps| - 1;
      GrantTotal(ps[..k], time, limit, outgoing);
      var front, all := Commands(ps[..k], time, limit, outgoing), Commands(ps, time, limit, outgoing);
      if ps[k].connected { assert all[..|all| - 1] == front; } else { assert all == front; }
      var c := UngrantedCount(time)(ps[k]);
      assert limit * (Sum(ps[..k], UngrantedCount(time)) + c) == limit * Sum(ps[..k], UngrantedCount(time)) + limit * c;
    }
  }

  lemma AnyConnected(ps: seq<Peer>)
    ensures Sum(ps, ConnectedCount) == 0 <==> forall k :: 0 <= k < |ps| ==> !ps[k].connected
  {
    if ps != [] {
      AnyConnected(ps[..|ps| - 1]);
      SumBounds(ps[..|ps| - 1], ConnectedCount, ConnectedCount);
      assert forall k :: 0 <= k < |ps| - 1 ==> ps[..|ps| - 1][k] == ps[k];
    }
  }

  /** The outgoing half leaves marks and connections of the incoming half alone. */
  lemma {:induction false} SameMarks(was: seq<Peer>, ps: seq<Peer>, time: nat, elapsed: nat, throttle: nat)
    requires |was| == |ps| && forall k :: 0 <= k < |ps| ==> Regulated(was[k], ps[k], time, elapsed, throttle)
    ensures Sum(ps, Granted(time)) == Sum(was, Granted(time)) && Sum(ps, ConnectedCount) == Sum(was, ConnectedCount)
  {
    if ps != [] {
      var n := |ps| - 1;
      SameMarks(was[..n], ps[..n], time, elapsed, throttle);
      assert Regulated(was[n], ps[n], time, elapsed, throttle);
    }
  }

  lemma BudgetPositive(bandwidth: nat, elapsed: nat)
    requires 1000 <= elapsed
    ensures bandwidth > 0 ==> bandwidth * elapsed / 1000 > 0
  {
    if bandwidth > 0 { MulMono(bandwidth, 1000, elapsed); }
  }

  lemma OpenWithin(ps: seq<Peer>, time: nat)
    ensures Sum(ps, OpenData(time)) <= Sum(ps, ConnectedData) && Sum(ps, OpenCount(time)) <= Sum(ps, ConnectedCount)
  {
    SumBounds(ps, OpenData(time), ConnectedData);
    SumBounds(ps, OpenCount(time), ConnectedCount);
  }

  lemma PassedThen(a: seq<Peer>, b: seq<Peer>, c: seq<Peer>, time: nat, elapsed: nat)
    requires Passed(a, b, time, elapsed) && Passed(b, c, time, elapsed)
    ensures Passed(a, c, time, elapsed)
  {
    forall k | 0 <= k < |c| ensures c[k] == a[k] || SettledFrom(a[k], c[k], time, elapsed) {
      assert b[k] == a[k] || SettledFrom(a[k], b[k], time, elapsed);
    }
  }

  lemma OpenCounted(ps: seq<Peer>, time: nat, k: nat)
    requires k < |ps| && Sum(ps, OpenCount(time)) <= 0
    ensures !Open(ps[k], time)
  {
    SumHasTerm(ps, OpenCount(time), k);
  }

  lemma {:induction false} NoneOpen(ps: seq<Peer>, time: nat, throttle: nat)
    requires Sum(ps, OpenCount(time)) <= 0
    ensures Sum(ps, OpenThrottled(time, throttle)) == 0
  {
    if ps != [] {
      var n := |ps| - 1;
      OpenSums(ps[..n], time);
      NoneOpen(ps[..n], time, throttle);
    }
  }

  lemma OpenSums(ps: seq<Peer>, time: nat)
    ensures 0 <= Sum(ps, OpenData(time)) && 0 <= Sum(ps, OpenCount(time))
  {
    SumBounds(ps, OpenData(time), OpenData(time));
    SumBounds(ps, OpenCount(time), OpenCount(time));
  }

  /** One more share still fits the budget, as it is less than what the throttle allots to the demand. */
  lemma SettleBudget(throttle: nat, demand: int, open: int, out: nat, share: nat, bandwidth: nat, left: int, data: nat)
    requires THROTTLE_SCALE * (bandwidth - left) <= throttle * (demand - open)
    requires THROTTLE_SCALE * share <= throttle * out && 0 <= open - out && demand <= data
    requires throttle * data <= THROTTLE_SCALE * bandwidth
    ensures THROTTLE_SCALE * (bandwidth - (left - share)) <= throttle * (demand - (open - out))
    ensures share <= left
  {
    assert throttle * (demand - (open - out)) == throttle * (demand - open) + throttle * out;
    assert throttle * (demand - (open - out)) <= throttle * data by { MulMono(throttle, demand - (open - out), data); }
  }

  lemma MulMono(t: nat, a: int, b: int)
    requires a <= b
    ensures t * a <= t * b
  {
  }

  /** A peer that keeps no more than the limit leaves enough for the others. */
  lemma StillCovered(limit: nat, remaining: nat, bandwidth: int, kept: nat)
    requires 0 < remaining && limit * remaining <= bandwidth && kept <= limit
    ensures 0 <= limit * (remaining - 1) <= bandwidth - kept
  {
    assert limit * remaining == limit * (remaining - 1) + limit;
  }
}
