/** Reliable commands in flight (enet/protocol.c): sending, timing out, resending and acknowledging,
    with the per-window counters the sender keeps of them. */
module InFlight {
  import opened SequenceNumbers

  const TIME_SPACE: int := 0x1_0000_0000
  const TIME_OVERFLOW: int := 86400000
  const TIMEOUT_LIMIT: int := 32
  const TIMEOUT_MINIMUM: int := 5000
  const TIMEOUT_MAXIMUM: int := 30000

  type Time = x: int | 0 <= x < 0x1_0000_0000
  type Window = x: int | 0 <= x < 16

  /** ENetOutgoingCommand, without its packet's bytes. */
  datatype Outgoing = Outgoing(
    sequence: Sequence, channel: nat, sendAttempts: nat,
    sentTime: Time, roundTripTimeout: Time, roundTripTimeoutLimit: Time,
    hasPacket: bool, fragmentLength: nat, commandSize: nat)

  /** ENET_TIME_DIFFERENCE and ENET_TIME_LESS on 32-bit times. */
  function TimeDifference(a: Time, b: Time): Time {
    if (a - b) % TIME_SPACE >= TIME_OVERFLOW then (b - a) % TIME_SPACE else (a - b) % TIME_SPACE
  }

  predicate TimeLess(a: Time, b: Time) {
    (a - b) % TIME_SPACE >= TIME_OVERFLOW
  }

  ghost function WindowOf(s: Sequence): Window {
    s / WINDOW_SIZE
  }

  /** A command of channel c in window w that has been sent at least once. */
  ghost predicate Counted(o: Outgoing, c: nat, w: Window) {
    o.channel == c && WindowOf(o.sequence) == w && o.sendAttempts >= 1
  }

  ghost function Count(cs: seq<Outgoing>, c: nat, w: Window): nat {
    if cs == [] then 0 else Count(cs[..|cs| - 1], c, w) + if Counted(cs[|cs| - 1], c, w) then 1 else 0
  }

  lemma {:induction false} CountSplit(a: seq<Outgoing>, b: seq<Outgoing>, c: nat, w: Window)
    ensures Count(a + b, c, w) == Count(a, c, w) + Count(b, c, w)
  {
    if b == [] {
      assert a + b == a;
    } else {
      assert (a + b)[..|a + b| - 1] == a + b[..|b| - 1];
      CountSplit(a, b[..|b| - 1], c, w);
    }
  }

  lemma CountOne(o: Outgoing, c: nat, w: Window)
    ensures Count([o], c, w) == if Counted(o, c, w) then 1 else 0
  {
    assert [o][..0] == [];
  }

  /** Taking one command out, or putting one in, changes the count of its own window only. */
  lemma CountAround(a: seq<Outgoing>, o: Outgoing, b: seq<Outgoing>, c: nat, w: Window)
    ensures Count(a + [o] + b, c, w) == Count(a, c, w) + Count(b, c, w) + if Counted(o, c, w) then 1 else 0
  {
    CountSplit(a + [o], b, c, w);
    CountSplit(a, [o], c, w);
    CountOne(o, c, w);
  }

  /** What identifies a command to its acknowledgement. */
  ghost function Key(o: Outgoing): (Sequence, nat) {
    (o.sequence, o.channel)
  }

  ghost function Keys(cs: seq<Outgoing>): multiset<(Sequence, nat)> {
    if cs == [] then multiset{} else Keys(cs[..|cs| - 1]) + multiset{Key(cs[|cs| - 1])}
  }

  lemma {:induction false} KeysSplit(a: seq<Outgoing>, b: seq<Outgoing>)
    ensures Keys(a + b) == Keys(a) + Keys(b)
  {
    if b == [] {
      assert a + b == a;
    } else {
      assert (a + b)[..|a + b| - 1] == a + b[..|b| - 1];
      KeysSplit(a, b[..|b| - 1]);
    }
  }

  lemma KeysAround(a: seq<Outgoing>, o: Outgoing, b: seq<Outgoing>)
    ensures Keys(a + [o] + b) == Keys(a) + Keys(b) + multiset{Key(o)}
  {
    KeysSplit(a + [o], b);
    KeysSplit(a, [o]);
    assert [o][..0] == [];
    assert Keys([o]) == multiset{Key(o)};
  }

  /** Whether a command with this key has been sent at least once. */
  ghost predicate Tried(cs: seq<Outgoing>, s: Sequence, c: nat) {
    exists i :: 0 <= i < |cs| && cs[i].sendAttempts >= 1 && Key(cs[i]) == (s, c)
  }

  /** The commands to resend come first. */
  ghost predicate ResendsFirst(cs: seq<Outgoing>) {
    forall i, j :: 0 <= i < j < |cs| && cs[j].sendAttempts >= 1 ==> cs[i].sendAttempts >= 1
  }

  ghost predicate AllTried(cs: seq<Outgoing>) {
    forall i :: 0 <= i < |cs| ==> cs[i].sendAttempts >= 1
  }

  /** The first commands have all been sent at least once. */
  ghost predicate Tries(cs: seq<Outgoing>, n: nat) {
    n <= |cs| && forall j :: 0 <= j < n ==> cs[j].sendAttempts >= 1
  }

  type Counters = seq<nat>

  /** One channel's counters agree with the commands in flight. */
  ghost predicate ChannelOk(windows: Counters, used: set<Window>, sent: seq<Outgoing>, outgoing: seq<Outgoing>,
                            c: nat) {
    && |windows| == WINDOWS
    && (forall w: Window :: windows[w] == Count(sent, c, w) + Count(outgoing, c, w))
    && (forall w: Window :: w in used <==> windows[w] > 0)
  }

  /** What the sending side of a peer keeps over every run: counters exact, used windows exactly the
      non-zero ones, everything in sentReliableCommands sent, resends ahead of new commands. */
  ghost predicate Accounted(windows: seq<Counters>, used: seq<set<Window>>, sent: seq<Outgoing>,
                            outgoing: seq<Outgoing>) {
    && |windows| == |used|
    && AllTried(sent) && ResendsFirst(outgoing)
    && forall c :: 0 <= c < |windows| ==> ChannelOk(windows[c], used[c], sent, outgoing, c)
  }

  function Without(cs: seq<Outgoing>, i: nat): seq<Outgoing>
    requires i < |cs|
  {
    cs[..i] + cs[i + 1..]
  }

  /** The first command with this key, o, was taken out, and the others stay in their order. */
  ghost predicate FirstTaken(cs: seq<Outgoing>, rest: seq<Outgoing>, key: (Sequence, nat), o: Outgoing) {
    exists i {:trigger Without(cs, i)} :: 0 <= i < |cs| && rest == Without(cs, i) && o == cs[i] && Key(o) == key &&
      forall j :: 0 <= j < i ==> Key(cs[j]) != key
  }

  function With(cs: seq<Outgoing>, at: nat, o: Outgoing): seq<Outgoing>
    requires at <= |cs|
  {
    cs[..at] + [o] + cs[at..]
  }

  lemma WithoutCounts(cs: seq<Outgoing>, i: nat, c: nat, w: Window)
    requires i < |cs|
    ensures Count(cs, c, w) == Count(Without(cs, i), c, w) + if Counted(cs[i], c, w) then 1 else 0
  {
    assert cs == cs[..i] + [cs[i]] + cs[i + 1..];
    CountAround(cs[..i], cs[i], cs[i + 1..], c, w);
    CountSplit(cs[..i], cs[i + 1..], c, w);
  }

  lemma WithCounts(cs: seq<Outgoing>, at: nat, o: Outgoing, c: nat, w: Window)
    requires at <= |cs|
    ensures Count(With(cs, at, o), c, w) == Count(cs, c, w) + if Counted(o, c, w) then 1 else 0
  {
    assert cs == cs[..at] + cs[at..];
    CountAround(cs[..at], o, cs[at..], c, w);
    CountSplit(cs[..at], cs[at..], c, w);
  }

  lemma WithoutKeys(cs: seq<Outgoing>, i: nat)
    requires i < |cs|
    ensures Keys(cs) == Keys(Without(cs, i)) + multiset{Key(cs[i])}
  {
    hide Keys;
    assert cs == cs[..i] + [cs[i]] + cs[i + 1..];
    KeysAround(cs[..i], cs[i], cs[i + 1..]);
    KeysSplit(cs[..i], cs[i + 1..]);
  }

  lemma WithKeys(cs: seq<Outgoing>, at: nat, o: Outgoing)
    requires at <= |cs|
    ensures Keys(With(cs, at, o)) == Keys(cs) + multiset{Key(o)}
  {
    hide Keys;
    assert cs == cs[..at] + cs[at..];
    KeysAround(cs[..at], o, cs[at..]);
    KeysSplit(cs[..at], cs[at..]);
  }

  /** Moving a sent command into the queue, behind other resends, changes no count. */
  lemma MovedBack(windows: seq<Counters>, used: seq<set<Window>>, sent: seq<Outgoing>, outgoing: seq<Outgoing>,
                  i: nat, at: nat, o: Outgoing)
    requires Accounted(windows, used, sent, outgoing) && i < |sent| && at <= |outgoing|
    requires Key(o) == Key(sent[i]) && o.sendAttempts == sent[i].sendAttempts
    requires Tries(outgoing, at)
    ensures Accounted(windows, used, Without(sent, i), With(outgoing, at, o))
    ensures Keys(Without(sent, i)) + Keys(With(outgoing, at, o)) == Keys(sent) + Keys(outgoing)
    ensures Tries(With(outgoing, at, o), at + 1)
  {
    hide Count, Keys;
    forall c | 0 <= c < |windows| ensures ChannelOk(windows[c], used[c], Without(sent, i), With(outgoing, at, o), c) {
      assert ChannelOk(windows[c], used[c], sent, outgoing, c);
      forall w: Window
        ensures Count(Without(sent, i), c, w) + Count(With(outgoing, at, o), c, w) ==
          Count(sent, c, w) + Count(outgoing, c, w)
      {
        WithoutCounts(sent, i, c, w);
        WithCounts(outgoing, at, o, c, w);
      }
    }
    WithoutKeys(sent, i);
    WithKeys(outgoing, at, o);
    InsertedResend(outgoing, at, o);
  }

  lemma InsertedResend(outgoing: seq<Outgoing>, at: nat, o: Outgoing)
    requires ResendsFirst(outgoing) && at <= |outgoing| && o.sendAttempts >= 1
    requires Tries(outgoing, at)
    ensures ResendsFirst(With(outgoing, at, o))
  {
  }

  function CountUp(windows: seq<Counters>, c: nat, w: Window): (r: seq<Counters>)
    requires c < |windows| && |windows[c]| == WINDOWS
    ensures |r| == |windows|
  {
    windows[c := windows[c][w := windows[c][w] + 1]]
  }

  /** Sending the head of the queue for the first time counts it, if its channel exists. */
  lemma SentFirst(windows: seq<Counters>, used: seq<set<Window>>, sent: seq<Outgoing>, outgoing: seq<Outgoing>,
                  o: Outgoing)
    requires Accounted(windows, used, sent, outgoing) && outgoing != []
    requires Key(o) == Key(outgoing[0]) && o.sendAttempts == 1 && outgoing[0].sendAttempts < 1
    ensures var w, c := WindowOf(o.sequence), o.channel;
      if c < |windows| then
        |windows[c]| == WINDOWS &&
        Accounted(CountUp(windows, c, w), used[c := used[c] + {w}], With(sent, |sent|, o), Without(outgoing, 0))
      else
        Accounted(windows, used, With(sent, |sent|, o), Without(outgoing, 0))
  {
    hide Count;
    var w, c := WindowOf(o.sequence), o.channel;
    assert c < |windows| ==> ChannelOk(windows[c], used[c], sent, outgoing, c);
    var windows' := if c < |windows| then CountUp(windows, c, w) else windows;
    var used' := if c < |windows| then used[c := used[c] + {w}] else used;
    forall d | 0 <= d < |windows|
      ensures ChannelOk(windows'[d], used'[d], With(sent, |sent|, o), Without(outgoing, 0), d) {
      assert ChannelOk(windows[d], used[d], sent, outgoing, d);
      forall v: Window ensures Count(With(sent, |sent|, o), d, v) + Count(Without(outgoing, 0), d, v)
        == Count(sent, d, v) + Count(outgoing, d, v) + (if d == c && v == w then 1 else 0)
      {
        WithoutCounts(outgoing, 0, d, v);
        WithCounts(sent, |sent|, o, d, v);
      }
    }
  }

  /** Sending it again changes no count. */
  lemma SentAgain(windows: seq<Counters>, used: seq<set<Window>>, sent: seq<Outgoing>, outgoing: seq<Outgoing>,
                  o: Outgoing)
    requires Accounted(windows, used, sent, outgoing) && outgoing != []
    requires Key(o) == Key(outgoing[0]) && o.sendAttempts == outgoing[0].sendAttempts + 1
      && outgoing[0].sendAttempts >= 1
    ensures Accounted(windows, used, With(sent, |sent|, o), Without(outgoing, 0))
  {
    hide Count;
    forall d | 0 <= d < |windows|
      ensures ChannelOk(windows[d], used[d], With(sent, |sent|, o), Without(outgoing, 0), d) {
      assert ChannelOk(windows[d], used[d], sent, outgoing, d);
      forall v: Window ensures Count(With(sent, |sent|, o), d, v) + Count(Without(outgoing, 0), d, v)
        == Count(sent, d, v) + Count(outgoing, d, v)
      {
        WithoutCounts(outgoing, 0, d, v);
        WithCounts(sent, |sent|, o, d, v);
      }
    }
  }

  function CountDown(windows: seq<Counters>, c: nat, w: Window): seq<Counters>
    requires c < |windows| && |windows[c]| == WINDOWS && windows[c][w] > 0
  {
    windows[c := windows[c][w := windows[c][w] - 1]]
  }

  ghost predicate CountsDrop(sent: seq<Outgoing>, outgoing: seq<Outgoing>, sent': seq<Outgoing>,
                             outgoing': seq<Outgoing>,
                             o: Outgoing, d: nat, v: Window) {
    Count(sent, d, v) + Count(outgoing, d, v)
      == Count(sent', d, v) + Count(outgoing', d, v) + (if Counted(o, d, v) then 1 else 0)
  }

  /** Removing one command that has been sent, from either list, with its counter. */
  lemma Removed(windows: seq<Counters>, used: seq<set<Window>>, sent: seq<Outgoing>, outgoing: seq<Outgoing>,
                sent': seq<Outgoing>, outgoing': seq<Outgoing>, o: Outgoing)
    requires Accounted(windows, used, sent, outgoing) && o.sendAttempts >= 1
    requires AllTried(sent') && ResendsFirst(outgoing')
    requires forall d, v :: CountsDrop(sent, outgoing, sent', outgoing', o, d, v)
    ensures var w, c := WindowOf(o.sequence), o.channel;
      if c < |windows| then
        |windows[c]| == WINDOWS && windows[c][w] > 0 &&
        Accounted(CountDown(windows, c, w),
                  if windows[c][w] == 1 then used[c := used[c] - {w}] else used, sent', outgoing')
      else
        Accounted(windows, used, sent', outgoing')
  {
    hide Count;
    var w, c := WindowOf(o.sequence), o.channel;
    assert Counted(o, c, w) && CountsDrop(sent, outgoing, sent', outgoing', o, c, w);
    assert c < |windows| ==> ChannelOk(windows[c], used[c], sent, outgoing, c);
    var windows' := if c < |windows| then CountDown(windows, c, w) else windows;
    var used' := if c < |windows| && windows[c][w] == 1 then used[c := used[c] - {w}] else used;
    forall d | 0 <= d < |windows| ensures ChannelOk(windows'[d], used'[d], sent', outgoing', d) {
      assert ChannelOk(windows[d], used[d], sent, outgoing, d);
      forall v: Window ensures windows'[d][v] == Count(sent', d, v) + Count(outgoing', d, v) {
        assert CountsDrop(sent, outgoing, sent', outgoing', o, d, v);
      }
    }
  }

  /** A new command joins the end of the queue. */
  lemma QueuedOn(windows: seq<Counters>, used: seq<set<Window>>, sent: seq<Outgoing>, outgoing: seq<Outgoing>,
                 o: Outgoing)
    requires Accounted(windows, used, sent, outgoing) && o.sendAttempts == 0
    ensures Accounted(windows, used, sent, outgoing + [o])
    ensures Keys(outgoing + [o]) == Keys(outgoing) + multiset{Key(o)}
  {
    hide Count;
    forall d | 0 <= d < |windows| ensures ChannelOk(windows[d], used[d], sent, outgoing + [o], d) {
      assert ChannelOk(windows[d], used[d], sent, outgoing, d);
      forall v: Window ensures Count(outgoing + [o], d, v) == Count(outgoing, d, v) {
        CountSplit(outgoing, [o], d, v);
        CountOne(o, d, v);
      }
    }
    assert (outgoing + [o])[..|outgoing|] == outgoing;
  }

  /** An acknowledged command leaves the list of sent commands. */
  lemma RemovedFromSent(windows: seq<Counters>, used: seq<set<Window>>, sent: seq<Outgoing>, outgoing: seq<Outgoing>,
                        i: nat)
    requires Accounted(windows, used, sent, outgoing) && i < |sent|
    ensures AllTried(Without(sent, i)) && sent[i].sendAttempts >= 1
    ensures forall d, v :: CountsDrop(sent, outgoing, Without(sent, i), outgoing, sent[i], d, v)
    ensures Keys(Without(sent, i)) + multiset{Key(sent[i])} == Keys(sent)
  {
    hide Keys, Count;
    forall d, v ensures CountsDrop(sent, outgoing, Without(sent, i), outgoing, sent[i], d, v) {
      WithoutCounts(sent, i, d, v);
    }
    WithoutKeys(sent, i);
  }

  /** Or it leaves the queue, where it was waiting to be sent again. */
  lemma RemovedFromQueue(windows: seq<Counters>, used: seq<set<Window>>, sent: seq<Outgoing>, outgoing: seq<Outgoing>,
                         i: nat)
    requires Accounted(windows, used, sent, outgoing) && i < |outgoing| && outgoing[i].sendAttempts >= 1
    ensures ResendsFirst(Without(outgoing, i))
    ensures forall d, v :: CountsDrop(sent, outgoing, sent, Without(outgoing, i), outgoing[i], d, v)
    ensures Keys(Without(outgoing, i)) + multiset{Key(outgoing[i])} == Keys(outgoing)
  {
    hide Keys, Count;
    forall d, v ensures CountsDrop(sent, outgoing, sent, Without(outgoing, i), outgoing[i], d, v) {
      WithoutCounts(outgoing, i, d, v);
    }
    WithoutKeys(outgoing, i);
    var rest := Without(outgoing, i);
    forall j, l | 0 <= j < l < |rest| && rest[l].sendAttempts >= 1 ensures rest[j].sendAttempts >= 1 {
      var j0, l0 := if j < i then j else j + 1, if l < i then l else l + 1;
      assert rest[j] == outgoing[j0] && rest[l] == outgoing[l0];
    }
  }

  /** Whether a command's time is not up yet. */
  predicate InTime(o: Outgoing, now: Time) {
    TimeDifference(now, o.sentTime) < o.roundTripTimeout
  }

  ghost function StillInTime(cs: seq<Outgoing>, now: Time): seq<Outgoing> {
    if cs == [] then []
    else StillInTime(cs[..|cs| - 1], now) + if InTime(cs[|cs| - 1], now) then [cs[|cs| - 1]] else []
  }

  /** The commands whose time is up, in order, with twice the time for the next attempt. */
  ghost function TimedOut(cs: seq<Outgoing>, now: Time): seq<Outgoing> {
    if cs == [] then []
    else
      var o := cs[|cs| - 1];
      TimedOut(cs[..|cs| - 1], now) + if InTime(o, now) then [] else [Again(o)]
  }

  ghost function Again(o: Outgoing): Outgoing {
    o.(roundTripTimeout := o.roundTripTimeout * 2 % TIME_SPACE)
  }

  /** The earliest time from which the peer has not answered, with the commands whose time is up; 0 for none. */
  ghost function Earliest(e: Time, cs: seq<Outgoing>, now: Time): Time {
    if cs == [] then e
    else
      var e', o := Earliest(e, cs[..|cs| - 1], now), cs[|cs| - 1];
      if InTime(o, now) then e' else if e' == 0 || TimeLess(o.sentTime, e') then o.sentTime else e'
  }

  /** Whether a peer that has not answered from time e on is given up for command o. */
  predicate Hopeless(o: Outgoing, e: Time, now: Time) {
    && e != 0
    && (TimeDifference(now, e) >= TIMEOUT_MAXIMUM ||
        (o.roundTripTimeout >= o.roundTripTimeoutLimit && TimeDifference(now, e) >= TIMEOUT_MINIMUM))
  }

  /** Command k is the reason to give the peer up. */
  ghost predicate GivenUpAt(e: Time, cs: seq<Outgoing>, now: Time, k: nat)
    requires k < |cs|
  {
    !InTime(cs[k], now) && Hopeless(cs[k], Earliest(e, cs[..k + 1], now), now)
  }

  /** How long ago a time was. */
  function Ago(now: Time, t: Time): Time {
    (now - t) % TIME_SPACE
  }

  /** Within a day the comparisons are those of the times themselves. */
  lemma TimesOfADay(now: Time, t: Time, u: Time)
    requires Ago(now, t) < TIME_OVERFLOW && Ago(now, u) < TIME_OVERFLOW
    ensures TimeDifference(now, t) == TimeDifference(t, now) == Ago(now, t)
    ensures TimeLess(t, u) <==> Ago(now, t) > Ago(now, u)
    ensures forall o: Outgoing :: o.sentTime == t ==> (InTime(o, now) <==> Ago(now, t) < o.roundTripTimeout)
  {
    assert (t - u) % TIME_SPACE == (Ago(now, u) - Ago(now, t)) % TIME_SPACE;
  }

  /** All these times are not 0 and within a day. */
  ghost predicate OfToday(e: Time, cs: seq<Outgoing>, now: Time) {
    && (e != 0 ==> Ago(now, e) < TIME_OVERFLOW)
    && forall i :: 0 <= i < |cs| && !InTime(cs[i], now) ==>
         cs[i].sentTime != 0 && Ago(now, cs[i].sentTime) < TIME_OVERFLOW
  }

  /** Then the earliest time is the one longest ago. */
  lemma {:induction false} EarliestIs(e: Time, cs: seq<Outgoing>, now: Time)
    requires OfToday(e, cs, now)
    ensures var e' := Earliest(e, cs, now);
      && (e' == 0 <==> e == 0 && forall i :: 0 <= i < |cs| ==> InTime(cs[i], now))
      && (e' != 0 ==> Ago(now, e') < TIME_OVERFLOW && TimeDifference(now, e') == Ago(now, e'))
      && (e' == e || exists i :: 0 <= i < |cs| && !InTime(cs[i], now) && e' == cs[i].sentTime)
      && (e != 0 ==> Ago(now, e) <= Ago(now, e'))
      && (forall i :: 0 <= i < |cs| && !InTime(cs[i], now) ==> Ago(now, cs[i].sentTime) <= Ago(now, e'))
  {
    hide TimeDifference, TimeLess, Ago, InTime;
    if cs == [] {
      if e != 0 { TimesOfADay(now, e, e); }
    } else {
      var rest, o := cs[..|cs| - 1], cs[|cs| - 1];
      EarliestIs(e, rest, now);
      var e' := Earliest(e, rest, now);
      if !InTime(o, now) {
        TimesOfADay(now, o.sentTime, o.sentTime);
        if e' != 0 { TimesOfADay(now, o.sentTime, e'); }
      }
      forall i | 0 <= i < |cs| && !InTime(cs[i], now)
        ensures Ago(now, cs[i].sentTime) <= Ago(now, Earliest(e, cs, now))
      {
        if i < |rest| { assert rest[i] == cs[i]; }
      }
    }
  }

  /** So a peer is given up exactly when, at a command whose time is up, some command up to it, or the time kept
      from before, was sent 30 seconds ago, or 5 seconds and the command has reached its limit. */
  lemma GivenUpExactly(e: Time, cs: seq<Outgoing>, now: Time, k: nat)
    requires OfToday(e, cs, now) && k < |cs|
    ensures GivenUpAt(e, cs, now, k) <==>
      && !InTime(cs[k], now)
      && var spent := cs[k].roundTripTimeout >= cs[k].roundTripTimeoutLimit;
         var least := if spent then TIMEOUT_MINIMUM else TIMEOUT_MAXIMUM;
         || (e != 0 && Ago(now, e) >= least)
         || exists i :: 0 <= i <= k && !InTime(cs[i], now) && Ago(now, cs[i].sentTime) >= least
  {
    hide TimeDifference, TimeLess, Ago, InTime;
    var first := cs[..k + 1];
    assert forall i :: 0 <= i <= k ==> first[i] == cs[i];
    EarliestIs(e, first, now);
  }

  /** A command as it goes onto the wire. */
  ghost function Stamped(o: Outgoing, now: Time, roundTrip: Time): Outgoing {
    var sent := o.(sendAttempts := o.sendAttempts + 1, sentTime := now);
    if o.roundTripTimeout == 0
    then sent.(roundTripTimeout := roundTrip, roundTripTimeoutLimit := TIMEOUT_LIMIT * roundTrip % TIME_SPACE)
    else sent
  }

  /** When the time of a command sent is up. */
  ghost function TimeoutOf(o: Outgoing): Time {
    (o.sentTime + o.roundTripTimeout) % TIME_SPACE
  }

  lemma TimeoutIs(o: Outgoing)
    ensures TimeoutOf(o) == (o.sentTime + o.roundTripTimeout) % TIME_SPACE
  {
  }

  lemma DataOfOne(o: Outgoing)
    ensures DataOf([o]) == if o.hasPacket then o.fragmentLength else 0
  {
    assert [o][..0] == [];
  }

  lemma StampedAt(o: Outgoing, now: Time, roundTrip: Time)
    ensures TimeoutOf(Stamped(o, now, roundTrip)) == (now + Stamped(o, now, roundTrip).roundTripTimeout) % TIME_SPACE
  {
  }

  ghost function StampedAll(cs: seq<Outgoing>, now: Time, roundTrip: Time): seq<Outgoing> {
    if cs == [] then [] else StampedAll(cs[..|cs| - 1], now, roundTrip) + [Stamped(cs[|cs| - 1], now, roundTrip)]
  }

  /** The bytes and the buffers commands take in a datagram. */
  ghost function OctetsOf(cs: seq<Outgoing>): nat {
    if cs == [] then 0
    else OctetsOf(cs[..|cs| - 1]) + cs[|cs| - 1].commandSize + if cs[|cs| - 1].hasPacket
      then cs[|cs| - 1].fragmentLength else 0
  }

  ghost function BuffersOf(cs: seq<Outgoing>): nat {
    if cs == [] then 0 else BuffersOf(cs[..|cs| - 1]) + if cs[|cs| - 1].hasPacket then 2 else 1
  }

  /** The packets' bytes among them, which are in transit once they are sent. */
  ghost function DataOf(cs: seq<Outgoing>): nat {
    if cs == [] then 0
    else DataOf(cs[..|cs| - 1]) + if cs[|cs| - 1].hasPacket then cs[|cs| - 1].fragmentLength else 0
  }

  /** How many commands of a channel in a window have been sent and are not acknowledged. */
  ghost function Unacknowledged(sent: seq<Outgoing>, outgoing: seq<Outgoing>, c: nat, w: Window): nat {
    Count(sent, c, w) + Count(outgoing, c, w)
  }

  /** The head of the queue would be the first command in its window, and must wait: the window before
      is full of unacknowledged commands, or there are some in one of the windows from there on that a
      channel must not run into. The part of these that wraps around is left to `wrapped`. */
  ghost predicate HeldBack(sent: seq<Outgoing>, outgoing: seq<Outgoing>, channels: nat, wrapped: Window -> set<Window>)
    requires outgoing != []
  {
    var o := outgoing[0];
    var c, w := o.channel, WindowOf(o.sequence);
    && c < channels && o.sendAttempts < 1 && o.sequence % WINDOW_SIZE == 0
    && (Unacknowledged(sent, outgoing, c, (w + WINDOWS - 1) % WINDOWS) >= WINDOW_SIZE ||
        exists v: Window :: (w <= v < w + FREE_WINDOWS || v in wrapped(w)) && Unacknowledged(sent, outgoing, c, v) > 0)
  }

  /** What becomes of the head of the queue: it goes into the datagram, or waits for an acknowledgement, or the
      datagram is full and another one must follow. */
  datatype Fate = Goes | Waits | Full

  ghost function FateOf(o: Outgoing, heldBack: bool, commands: int, buffers: int, left: int, inTransit: Time,
                        windowSize: Time): Fate {
    if heldBack then Waits
    else if commands == 0 || buffers < 2 || 0 <= left < o.commandSize then Full
    else if !o.hasPacket then Goes
    else if (inTransit + o.fragmentLength) % TIME_SPACE > windowSize then Waits
    else if left % 0x1_0000 < (o.commandSize + o.fragmentLength) % 0x1_0000 then Full
    else Goes
  }

  /** A datagram to be filled: the commands queued and sent before, and the room there is for commands, buffers,
      bytes and data in transit. */
  datatype Sending = Sending(
    queue: seq<Outgoing>, sent: seq<Outgoing>, now: Time, roundTrip: Time,
    channels: nat, wrapped: Window -> set<Window>,
    commandRoom: nat, bufferRoom: nat, room: int, inTransit: Time, windowSize: Time)
  {
    /** What becomes of command k when all before it have gone. */
    ghost function FateAt(k: nat): Fate
      requires k < |queue|
    {
      var gone := queue[..k];
      FateOf(queue[k], HeldBack(sent + StampedAll(gone, now, roundTrip), queue[k..], channels, wrapped),
        commandRoom - k, bufferRoom - BuffersOf(gone), room - OctetsOf(gone),
        (inTransit + DataOf(gone)) % TIME_SPACE, windowSize)
    }

    /** The first n commands go, and command n, if there is one, does not. */
    ghost predicate Fills(n: nat) {
      && n <= |queue| && (forall k :: 0 <= k < n ==> FateAt(k) == Goes)
      && (n < |queue| ==> FateAt(n) != Goes)
    }

    /** No command's size leaves 16 bits. */
    ghost predicate Short() {
      forall k :: 0 <= k < |queue| ==> queue[k].commandSize + queue[k].fragmentLength < 0x1_0000
    }
  }

  /** What goes fits the room. */
  lemma {:induction false} FitsDatagram(s: Sending, n: nat)
    requires n <= |s.queue| && (forall k :: 0 <= k < n ==> s.FateAt(k) == Goes)
    requires s.Short() && 0 <= s.room < 0x1_0000
    ensures OctetsOf(s.queue[..n]) <= s.room
  {
    hide HeldBack;
    if n > 0 {
      FitsDatagram(s, n - 1);
      assert s.FateAt(n - 1) == Goes;
      SendTurn(s.queue, n - 1, s.now, s.roundTrip);
    }
  }

  lemma AddWrapped(x: int, y: int)
    ensures (x % TIME_SPACE + y) % TIME_SPACE == (x + y) % TIME_SPACE
  {
  }

  /** Nor does it bring the data in transit above the window. */
  lemma {:induction false} TransitLimited(s: Sending, n: nat)
    requires n <= |s.queue| && (forall k :: 0 <= k < n ==> s.FateAt(k) == Goes)
    ensures var inTransit := (s.inTransit + DataOf(s.queue[..n])) % TIME_SPACE;
      inTransit == s.inTransit || inTransit <= s.windowSize
  {
    hide HeldBack, DataOf, OctetsOf, BuffersOf, StampedAll;
    if n == 0 { NoTurns(s.queue, s.now, s.roundTrip); }
    if n > 0 {
      TransitLimited(s, n - 1);
      assert s.FateAt(n - 1) == Goes;
      SendTurn(s.queue, n - 1, s.now, s.roundTrip);
      AddWrapped(s.inTransit + DataOf(s.queue[..n - 1]), s.queue[n - 1].fragmentLength);
    }
  }

  /** And the datagram is called full only if one of its rooms does not suffice for the next command. */
  lemma FullExactly(s: Sending, n: nat)
    requires s.Fills(n) && n < |s.queue| && s.Short() && 0 <= s.room < 0x1_0000
    ensures s.FateAt(n) == Full ==>
      s.commandRoom == n || s.bufferRoom - BuffersOf(s.queue[..n]) < 2 || s.room < OctetsOf(s.queue[..n + 1])
  {
    hide HeldBack;
    FitsDatagram(s, n);
    SendTurn(s.queue, n, s.now, s.roundTrip);
  }

  lemma TimeoutTurn(cs: seq<Outgoing>, k: nat, now: Time)
    requires k < |cs|
    ensures StillInTime(cs[..k + 1], now) == StillInTime(cs[..k], now) + if InTime(cs[k], now) then [cs[k]] else []
    ensures TimedOut(cs[..k + 1], now) == TimedOut(cs[..k], now) + if InTime(cs[k], now) then [] else [Again(cs[k])]
  {
    assert cs[..k + 1][..k] == cs[..k];
  }

  lemma NoTurns(cs: seq<Outgoing>, now: Time, roundTrip: Time)
    ensures StillInTime(cs[..0], now) == [] && TimedOut(cs[..0], now) == []
    ensures StampedAll(cs[..0], now, roundTrip) == [] && OctetsOf(cs[..0]) == 0 == BuffersOf(cs[..0]) == DataOf(cs[..0])
    ensures cs[..|cs|] == cs[0..] == cs
  {
  }

  lemma SendTurn(cs: seq<Outgoing>, k: nat, now: Time, roundTrip: Time)
    requires k < |cs|
    ensures StampedAll(cs[..k + 1], now, roundTrip) ==
      StampedAll(cs[..k], now, roundTrip) + [Stamped(cs[k], now, roundTrip)]
    ensures OctetsOf(cs[..k + 1]) ==
      OctetsOf(cs[..k]) + cs[k].commandSize + if cs[k].hasPacket then cs[k].fragmentLength else 0
    ensures BuffersOf(cs[..k + 1]) == BuffersOf(cs[..k]) + if cs[k].hasPacket then 2 else 1
    ensures DataOf(cs[..k + 1]) == DataOf(cs[..k]) + if cs[k].hasPacket then cs[k].fragmentLength else 0
  {
    assert cs[..k + 1][..k] == cs[..k];
  }

  lemma SomeStamped(cs: seq<Outgoing>, n: nat, now: Time, roundTrip: Time)
    requires 0 < n <= |cs|
    ensures StampedAll(cs[..n], now, roundTrip) != []
  {
  }

  /** What a check for timeouts starts from. */
  datatype Checking = Checking(
    sent: seq<Outgoing>, queue: seq<Outgoing>, now: Time, earliest: Time, packetsLost: nat, inTransit: Time,
    nextTimeout: Time)

  /** How far a check for timeouts has come: the first k commands have been looked at. */
  ghost predicate Checked(sent: seq<Outgoing>, outgoing: seq<Outgoing>, sent0: seq<Outgoing>, outgoing0: seq<Outgoing>,
                          k: nat, current: nat, insertPosition: nat, now: Time) {
    && k <= |sent0| && current == |StillInTime(sent0[..k], now)| && insertPosition == |TimedOut(sent0[..k], now)|
    && sent == StillInTime(sent0[..k], now) + sent0[k..] && outgoing == TimedOut(sent0[..k], now) + outgoing0
  }

  lemma CheckBegins(sent: seq<Outgoing>, outgoing: seq<Outgoing>, now: Time)
    ensures Checked(sent, outgoing, sent, outgoing, 0, 0, 0, now)
  {
    NoTurns(sent, now, 0);
  }

  lemma CheckTurn(sent: seq<Outgoing>, outgoing: seq<Outgoing>, sent0: seq<Outgoing>, outgoing0: seq<Outgoing>,
                  k: nat, current: nat, insertPosition: nat, now: Time)
    requires Checked(sent, outgoing, sent0, outgoing0, k, current, insertPosition, now) && current < |sent|
    ensures k < |sent0| && insertPosition <= |outgoing|
    ensures if InTime(sent[current], now)
      then Checked(sent, outgoing, sent0, outgoing0, k + 1, current + 1, insertPosition, now)
      else Checked(Without(sent, current), With(outgoing, insertPosition, Again(sent[current])), sent0, outgoing0,
                   k + 1, current, insertPosition + 1, now)
  {
    hide StillInTime, TimedOut;
    TimeoutTurn(sent0, k, now);
  }

  /** Which command the loop is at, and that the head of the list stays unless it is moved. */
  lemma CheckFacts(sent: seq<Outgoing>, outgoing: seq<Outgoing>, sent0: seq<Outgoing>, outgoing0: seq<Outgoing>,
                   k: nat, current: nat, insertPosition: nat, now: Time)
    requires Checked(sent, outgoing, sent0, outgoing0, k, current, insertPosition, now) && current < |sent|
    ensures k < |sent0| && sent[current] == sent0[k]
    ensures sent == StillInTime(sent0[..k], now) + sent0[k..] && outgoing == TimedOut(sent0[..k], now) + outgoing0
    ensures insertPosition == |TimedOut(sent0[..k], now)|
    ensures current > 0 && |Without(sent, current)| > 0 ==> Without(sent, current)[0] == sent[0]
  {
  }

  lemma EarliestNone(e: Time, cs: seq<Outgoing>, now: Time)
    ensures Earliest(e, cs[..0], now) == e && DataOf(TimedOut(cs[..0], now)) == 0
  {
  }

  /** One more command: the earliest time, and whether it is a reason to give the peer up. */
  lemma GivenUpNext(e: Time, cs: seq<Outgoing>, now: Time, k: nat)
    requires k < |cs|
    ensures var e' := Earliest(e, cs[..k], now);
      Earliest(e, cs[..k + 1], now) ==
        if InTime(cs[k], now) then e' else if e' == 0 || TimeLess(cs[k].sentTime, e') then cs[k].sentTime else e'
    ensures GivenUpAt(e, cs, now, k) <==>
      !InTime(cs[k], now) && Hopeless(cs[k], Earliest(e, cs[..k + 1], now), now)
  {
    assert cs[..k + 1][..k] == cs[..k];
  }

  lemma DataTurn(cs: seq<Outgoing>, k: nat, now: Time)
    requires k < |cs|
    ensures DataOf(TimedOut(cs[..k + 1], now)) ==
      DataOf(TimedOut(cs[..k], now)) + if InTime(cs[k], now) then 0 else DataOf([cs[k]])
  {
    hide TimedOut;
    TimeoutTurn(cs, k, now);
    var out := TimedOut(cs[..k], now);
    assert (out + [Again(cs[k])])[..|out|] == out && [cs[k]][..0] == [] && out + [] == out;
    assert DataOf(out + [Again(cs[k])]) == DataOf(out) + if cs[k].hasPacket then cs[k].fragmentLength else 0;
    assert DataOf([cs[k]]) == if cs[k].hasPacket then cs[k].fragmentLength else 0;
  }

  lemma {:induction false} DataSplit(a: seq<Outgoing>, b: seq<Outgoing>)
    ensures DataOf(a + b) == DataOf(a) + DataOf(b)
  {
    if b == [] {
      assert a + b == a;
    } else {
      assert (a + b)[..|a + b| - 1] == a + b[..|b| - 1];
      DataSplit(a, b[..|b| - 1]);
    }
  }

  /** What is sent weighs in the list what it weighed in the queue. */
  lemma {:induction false} DataStamped(cs: seq<Outgoing>, now: Time, roundTrip: Time)
    ensures DataOf(StampedAll(cs, now, roundTrip)) == DataOf(cs)
  {
    if cs != [] {
      var rest := cs[..|cs| - 1];
      DataStamped(rest, now, roundTrip);
      DataSplit(StampedAll(rest, now, roundTrip), [Stamped(cs[|cs| - 1], now, roundTrip)]);
      DataOfOne(Stamped(cs[|cs| - 1], now, roundTrip));
    }
  }

  /** A check for timeouts parts the data. */
  lemma {:induction false} DataParts(cs: seq<Outgoing>, now: Time)
    ensures DataOf(StillInTime(cs, now)) + DataOf(TimedOut(cs, now)) == DataOf(cs)
  {
    hide InTime;
    if cs != [] {
      var rest, o := cs[..|cs| - 1], cs[|cs| - 1];
      DataParts(rest, now);
      DataSplit(StillInTime(rest, now), if InTime(o, now) then [o] else []);
      DataSplit(TimedOut(rest, now), if InTime(o, now) then [] else [Again(o)]);
      DataOfOne(o);
      DataOfOne(Again(o));
    }
  }

  lemma DataTaken(cs: seq<Outgoing>, rest: seq<Outgoing>, key: (Sequence, nat), o: Outgoing)
    requires FirstTaken(cs, rest, key, o)
    ensures DataOf(cs) == DataOf(rest) + DataOf([o])
  {
    hide DataOf;
    var i :| 0 <= i < |cs| && rest == Without(cs, i) && o == cs[i];
    assert cs == (cs[..i] + [o]) + cs[i + 1..];
    DataSplit(cs[..i] + [o], cs[i + 1..]);
    DataSplit(cs[..i], [o]);
    DataSplit(cs[..i], cs[i + 1..]);
  }

  /** By how much the count of data in transit differs from the data of the commands sent. */
  ghost function Difference(inTransit: int, sent: seq<Outgoing>): Time {
    (inTransit - DataOf(sent)) % TIME_SPACE
  }

  /** Sending commands changes that by nothing. */
  lemma SendingBalances(inTransit: Time, sent: seq<Outgoing>, gone: seq<Outgoing>, now: Time, roundTrip: Time)
    ensures Difference((inTransit + DataOf(gone)) % TIME_SPACE, sent + StampedAll(gone, now, roundTrip)) ==
      Difference(inTransit, sent)
  {
    hide DataOf, StampedAll;
    DataStamped(gone, now, roundTrip);
    DataSplit(sent, StampedAll(gone, now, roundTrip));
    AddWrapped(inTransit + DataOf(gone), 0 - DataOf(sent + StampedAll(gone, now, roundTrip)));
  }

  /** Nor does putting timed-out commands back into the queue. */
  lemma TimeoutBalances(inTransit: Time, sent: seq<Outgoing>, k: nat, now: Time)
    requires k <= |sent|
    ensures Difference((inTransit - DataOf(TimedOut(sent[..k], now))) % TIME_SPACE,
                       StillInTime(sent[..k], now) + sent[k..]) == Difference(inTransit, sent)
  {
    hide DataOf, TimedOut, StillInTime;
    DataParts(sent[..k], now);
    DataSplit(StillInTime(sent[..k], now), sent[k..]);
    assert sent == sent[..k] + sent[k..];
    DataSplit(sent[..k], sent[k..]);
    AddWrapped(inTransit - DataOf(TimedOut(sent[..k], now)), 0 - DataOf(StillInTime(sent[..k], now) + sent[k..]));
  }

  /** An acknowledgement of a command sent does not either. */
  lemma TakingBalances(inTransit: Time, sent: seq<Outgoing>, rest: seq<Outgoing>, key: (Sequence, nat), o: Outgoing)
    requires FirstTaken(sent, rest, key, o)
    ensures Difference((inTransit - DataOf([o])) % TIME_SPACE, rest) == Difference(inTransit, sent)
  {
    hide DataOf;
    DataTaken(sent, rest, key, o);
    AddWrapped(inTransit - DataOf([o]), 0 - DataOf(rest));
  }

  /** But that of a command waiting to be sent again does, by its data, which was taken off when its time was up. */
  lemma TakingTwice(inTransit: Time, sent: seq<Outgoing>, o: Outgoing)
    ensures Difference((inTransit - DataOf([o])) % TIME_SPACE, sent) ==
      (Difference(inTransit, sent) - DataOf([o])) % TIME_SPACE
  {
    hide DataOf;
    AddWrapped(inTransit - DataOf([o]), 0 - DataOf(sent));
    AddWrapped(inTransit - DataOf(sent), 0 - DataOf([o]));
  }

  /** And then, with nothing in flight and d bytes taken off twice, only packets of d bytes or more are let through,
      whatever room there is. */
  lemma StalledExactly(s: Sending, d: nat)
    requires s.sent == [] && Difference(s.inTransit, s.sent) == TIME_SPACE - d && s.windowSize < TIME_SPACE - d
    requires s.queue != [] && s.queue[0].hasPacket && s.queue[0].fragmentLength < TIME_SPACE
    requires s.commandRoom > 0 && s.bufferRoom >= 2 && s.Short() && s.room < 0x1_0000
    requires s.queue[0].commandSize + s.queue[0].fragmentLength <= s.room
    ensures s.FateAt(0) == Goes <==>
      && !HeldBack(s.sent, s.queue, s.channels, s.wrapped)
      && d <= s.queue[0].fragmentLength <= d + s.windowSize
  {
    hide HeldBack;
    NoTurns(s.queue, s.now, s.roundTrip);
    assert s.sent + StampedAll(s.queue[..0], s.now, s.roundTrip) == s.sent && s.queue[0..] == s.queue;
  }

  /** The sending side of a peer. The peer's channels are 0 .. |reliableWindows| - 1. */
  class Peer {
    var sentReliableCommands: seq<Outgoing>
    var outgoingReliableCommands: seq<Outgoing>
    var reliableWindows: seq<Counters>
    var usedReliableWindows: seq<set<Window>>
    var nextTimeout: Time
    var earliestTimeout: Time
    var packetsLost: nat
    var packetsSent: nat
    var reliableDataInTransit: Time
    var windowSize: Time
    var roundTripTime: Time
    var roundTripTimeVariance: Time

    ghost predicate Valid()
      reads this`reliableWindows, this`usedReliableWindows, this`sentReliableCommands, this`outgoingReliableCommands
    {
      Accounted(reliableWindows, usedReliableWindows, sentReliableCommands, outgoingReliableCommands)
    }

    /** All commands not yet acknowledged, by key. */
    ghost function Pending(): multiset<(Sequence, nat)>
      reads this`sentReliableCommands, this`outgoingReliableCommands
    {
      Keys(sentReliableCommands) + Keys(outgoingReliableCommands)
    }

    /** By how much the count of data in transit is off. */
    ghost function Excess(): Time
      reads this`reliableDataInTransit, this`sentReliableCommands
    {
      Difference(reliableDataInTransit, sentReliableCommands)
    }

    /** The first timeout a command gets. */
    ghost function RoundTrip(): Time
      reads this`roundTripTime, this`roundTripTimeVariance
    {
      (roundTripTime + 4 * roundTripTimeVariance) % TIME_SPACE
    }

    constructor (channelCount: nat)
      ensures Valid() && Pending() == multiset{} && |reliableWindows| == channelCount && Excess() == 0
      ensures sentReliableCommands == outgoingReliableCommands == [] && earliestTimeout == 0 == nextTimeout
      ensures packetsLost == packetsSent == reliableDataInTransit == 0
      ensures windowSize == 32768 && roundTripTime == 500 && roundTripTimeVariance == 0
    {
      sentReliableCommands, outgoingReliableCommands := [], [];
      reliableWindows := seq(channelCount, _ => seq(WINDOWS, _ => 0));
      usedReliableWindows := seq(channelCount, _ => {});
      nextTimeout, earliestTimeout, packetsLost, packetsSent, reliableDataInTransit := 0, 0, 0, 0, 0;
      windowSize, roundTripTime, roundTripTimeVariance := 32768, 500, 0;
    }

    /** enet_peer_setup_outgoing_command, once the command has its number. */
    method Queue(o: Outgoing)
      requires Valid() && o.sendAttempts == 0
      modifies this`outgoingReliableCommands
      ensures Valid() && Pending() == old(Pending()) + multiset{Key(o)}
      ensures outgoingReliableCommands == old(outgoingReliableCommands) + [o]
    {
      QueuedOn(reliableWindows, usedReliableWindows, sentReliableCommands, outgoingReliableCommands, o);
      outgoingReliableCommands := outgoingReliableCommands + [o];
    }

    /** enet_protocol_check_timeouts: commands whose time is up go back to the front of the queue, in
        order; true when the peer is given up, at the first command there is a reason for it. The first k commands
        are dealt with. */
    method CheckTimeouts(serviceTime: Time) returns (disconnected: bool, ghost k: nat)
      requires Valid()
      modifies this`sentReliableCommands, this`outgoingReliableCommands, this`earliestTimeout, this`packetsLost
      modifies this`reliableDataInTransit, this`nextTimeout
      ensures Valid() && Pending() == old(Pending()) && reliableWindows == old(reliableWindows)
      ensures var sent, e := old(sentReliableCommands), old(earliestTimeout);
        disconnected <==> exists j :: 0 <= j < |sent| && GivenUpAt(e, sent, serviceTime, j)
      ensures var sent, e := old(sentReliableCommands), old(earliestTimeout);
        && k <= |sent| && (forall j :: 0 <= j < k ==> !GivenUpAt(e, sent, serviceTime, j))
        && (if disconnected then GivenUpAt(e, sent, serviceTime, k) else k == |sent|)
        && sentReliableCommands == StillInTime(sent[..k], serviceTime) + sent[k..]
        && outgoingReliableCommands == TimedOut(sent[..k], serviceTime) + old(outgoingReliableCommands)
        && earliestTimeout == Earliest(e, if disconnected then sent[..k + 1] else sent, serviceTime)
        && packetsLost == old(packetsLost) + |TimedOut(sent[..k], serviceTime)|
        && reliableDataInTransit ==
             (old(reliableDataInTransit) - DataOf(TimedOut(sent[..k], serviceTime))) % TIME_SPACE
        && (k == 0 || InTime(sent[0], serviceTime) ==> nextTimeout == old(nextTimeout))
        && (k > 0 && !InTime(sent[0], serviceTime) && sentReliableCommands != [] ==>
              nextTimeout == TimeoutOf(sentReliableCommands[0]))
      ensures Excess() == old(Excess())
    {
      hide Valid, Pending, Difference, InTime, Hopeless, TimeLess, GivenUpAt, Earliest, CheckedTo, DataOf, TimedOut,
        StillInTime, TimeoutOf;
      var current: nat, insertPosition: nat := 0, 0;
      ghost var c := Check(serviceTime);
      k := 0;
      NoneChecked(c);
      while current < |sentReliableCommands|
        invariant Valid() && Pending() == old(Pending()) && reliableWindows == old(reliableWindows)
        invariant CheckedTo(c, k, k, current, insertPosition) && k <= |c.sent|
        invariant forall j :: 0 <= j < k ==> !GivenUpAt(c.earliest, c.sent, serviceTime, j)
        decreases |c.sent| - k
      {
        CheckedNext(c, k, current, insertPosition);
        GivenUpNext(c.earliest, c.sent, serviceTime, k);
        var o := sentReliableCommands[current];
        if InTime(o, serviceTime) {
          CheckedInTime(c, k, current, insertPosition);
          current := current + 1;
          k := k + 1;
          continue;
        }
        SeeTimeout(o, c, k, current, insertPosition);
        if Hopeless(o, earliestTimeout, serviceTime) {
          CheckedFacts(c, k, k + 1, current, insertPosition);
          TimeoutBalances(c.inTransit, c.sent, k, serviceTime);
          return true, k;
        }
        Requeue(current, insertPosition, c, k);
        insertPosition := insertPosition + 1;
        k := k + 1;
      }
      CheckedFacts(c, k, k, current, insertPosition);
      CheckedAll(c, k, current, insertPosition);
      TimeoutBalances(c.inTransit, c.sent, k, serviceTime);
      disconnected := false;
    }

    /** What a check for timeouts starts from. */
    ghost function Check(now: Time): Checking
      reads this
    {
      Checking(sentReliableCommands, outgoingReliableCommands, now, earliestTimeout, packetsLost, reliableDataInTransit,
        nextTimeout)
    }

    /** The first k commands have been dealt with, and `seen` of them taken into the earliest time. */
    ghost predicate CheckedTo(c: Checking, k: nat, seen: nat, current: nat, insertPosition: nat)
      reads this
    {
      && Checked(sentReliableCommands, outgoingReliableCommands, c.sent, c.queue, k, current, insertPosition, c.now)
      && Tries(outgoingReliableCommands, insertPosition)
      && k <= |c.sent| && seen <= |c.sent| && earliestTimeout == Earliest(c.earliest, c.sent[..seen], c.now)
      && packetsLost == c.packetsLost + insertPosition
      && reliableDataInTransit == (c.inTransit - DataOf(TimedOut(c.sent[..k], c.now))) % TIME_SPACE
      && (k == 0 ==> current == 0 && sentReliableCommands == c.sent)
      && (k > 0 && InTime(c.sent[0], c.now) ==> current > 0)
      && (k == 0 || InTime(c.sent[0], c.now) ==> nextTimeout == c.nextTimeout)
      && (k > 0 && !InTime(c.sent[0], c.now) && sentReliableCommands != [] ==>
            nextTimeout == TimeoutOf(sentReliableCommands[0]))
    }

    lemma NoneChecked(c: Checking)
      requires c == Check(c.now)
      ensures CheckedTo(c, 0, 0, 0, 0)
    {
      CheckBegins(c.sent, c.queue, c.now);
      EarliestNone(c.earliest, c.sent, c.now);
    }

    lemma CheckedFacts(c: Checking, k: nat, seen: nat, current: nat, insertPosition: nat)
      requires CheckedTo(c, k, seen, current, insertPosition)
      ensures k <= |c.sent| && seen <= |c.sent| && earliestTimeout == Earliest(c.earliest, c.sent[..seen], c.now)
      ensures sentReliableCommands == StillInTime(c.sent[..k], c.now) + c.sent[k..]
      ensures outgoingReliableCommands == TimedOut(c.sent[..k], c.now) + c.queue
      ensures packetsLost == c.packetsLost + |TimedOut(c.sent[..k], c.now)|
      ensures reliableDataInTransit == (c.inTransit - DataOf(TimedOut(c.sent[..k], c.now))) % TIME_SPACE
      ensures k == 0 || InTime(c.sent[0], c.now) ==> nextTimeout == c.nextTimeout
      ensures k > 0 && !InTime(c.sent[0], c.now) && sentReliableCommands != [] ==>
        nextTimeout == TimeoutOf(sentReliableCommands[0])
    {
      hide StillInTime, TimedOut, Earliest, DataOf, TimeoutOf, InTime;
    }

    lemma CheckedAll(c: Checking, k: nat, current: nat, insertPosition: nat)
      requires CheckedTo(c, k, k, current, insertPosition) && |sentReliableCommands| <= current
      ensures k == |c.sent| && c.sent[..k] == c.sent
    {
      hide StillInTime, TimedOut, Earliest, DataOf;
    }

    /** Which command the loop is at. */
    lemma CheckedNext(c: Checking, k: nat, current: nat, insertPosition: nat)
      requires CheckedTo(c, k, k, current, insertPosition) && current < |sentReliableCommands|
      ensures k < |c.sent| && sentReliableCommands[current] == c.sent[k]
      ensures earliestTimeout == Earliest(c.earliest, c.sent[..k], c.now)
    {
      hide StillInTime, TimedOut, Earliest, DataOf;
    }

    lemma CheckedInTime(c: Checking, k: nat, current: nat, insertPosition: nat)
      requires CheckedTo(c, k, k, current, insertPosition) && current < |sentReliableCommands|
      requires InTime(sentReliableCommands[current], c.now)
      ensures CheckedTo(c, k + 1, k + 1, current + 1, insertPosition)
    {
      hide StillInTime, TimedOut, DataOf, InTime, TimeoutOf;
      CheckedNext(c, k, current, insertPosition);
      CheckTurn(sentReliableCommands, outgoingReliableCommands, c.sent, c.queue, k, current, insertPosition, c.now);
      GivenUpNext(c.earliest, c.sent, c.now, k);
      DataTurn(c.sent, k, c.now);
    }

    /** The earliest time is brought up to date for a command whose time is up. */
    method SeeTimeout(o: Outgoing, ghost c: Checking, ghost k: nat, ghost current: nat, ghost insertPosition: nat)
      requires CheckedTo(c, k, k, current, insertPosition) && k < |c.sent| && o == c.sent[k] && !InTime(o, c.now)
      modifies this`earliestTimeout
      ensures CheckedTo(c, k, k + 1, current, insertPosition)
      ensures earliestTimeout == Earliest(c.earliest, c.sent[..k + 1], c.now)
    {
      hide Checked, StillInTime, TimedOut, Earliest, DataOf, InTime, TimeLess, TimeoutOf;
      GivenUpNext(c.earliest, c.sent, c.now, k);
      if earliestTimeout == 0 || TimeLess(o.sentTime, earliestTimeout) {
        earliestTimeout := o.sentTime;
      }
    }

    /** The command goes back into the queue. */
    method Requeue(current: nat, insertPosition: nat, ghost c: Checking, ghost k: nat)
      requires Valid() && CheckedTo(c, k, k + 1, current, insertPosition) && current < |sentReliableCommands|
      requires !InTime(sentReliableCommands[current], c.now)
      modifies this`sentReliableCommands, this`outgoingReliableCommands, this`reliableDataInTransit
      modifies this`packetsLost, this`nextTimeout
      ensures Valid() && Pending() == old(Pending()) && CheckedTo(c, k + 1, k + 1, current, insertPosition + 1)
    {
      hide Valid, Pending, Checked, StillInTime, TimedOut, Earliest, DataOf, InTime, TimeoutOf, With, Without;
      ghost var sent, outgoing := sentReliableCommands, outgoingReliableCommands;
      CheckFacts(sent, outgoing, c.sent, c.queue, k, current, insertPosition, c.now);
      CheckTurn(sent, outgoing, c.sent, c.queue, k, current, insertPosition, c.now);
      DataTurn(c.sent, k, c.now);
      AddWrapped(c.inTransit - DataOf(TimedOut(c.sent[..k], c.now)), 0 - DataOf([sent[current]]));
      MoveBack(current, insertPosition);
      packetsLost := packetsLost + 1;
      if current == 0 && sentReliableCommands != [] {
        nextTimeout := (sentReliableCommands[0].sentTime + sentReliableCommands[0].roundTripTimeout) % TIME_SPACE;
        TimeoutIs(sentReliableCommands[0]);
      }
    }

    /** A command whose time is up goes back into the queue, for twice the time. */
    method MoveBack(current: nat, insertPosition: nat)
      requires Valid() && current < |sentReliableCommands| && insertPosition <= |outgoingReliableCommands|
      requires Tries(outgoingReliableCommands, insertPosition)
      modifies this`sentReliableCommands, this`outgoingReliableCommands, this`reliableDataInTransit
      ensures Valid() && Pending() == old(Pending())
      ensures reliableDataInTransit ==
        (old(reliableDataInTransit) - DataOf([old(sentReliableCommands)[current]])) % TIME_SPACE
      ensures sentReliableCommands == Without(old(sentReliableCommands), current)
      ensures outgoingReliableCommands ==
        With(old(outgoingReliableCommands), insertPosition, Again(old(sentReliableCommands)[current]))
      ensures Tries(outgoingReliableCommands, insertPosition + 1)
    {
      hide Accounted, Keys, With, Without;
      var o := sentReliableCommands[current];
      if o.hasPacket {
        reliableDataInTransit := (reliableDataInTransit - o.fragmentLength) % TIME_SPACE;
      }
      MovedBack(reliableWindows, usedReliableWindows, sentReliableCommands, outgoingReliableCommands,
                current, insertPosition, Again(o));
      sentReliableCommands := Without(sentReliableCommands, current);
      outgoingReliableCommands := With(outgoingReliableCommands, insertPosition,
        o.(roundTripTimeout := o.roundTripTimeout * 2 % TIME_SPACE));
    }

    /** The windows whose use keeps a channel from entering window w: the one-word mask of the C code,
        whose part that wraps around is left to `wrapped`. */
    predicate Obstructed(c: nat, w: Window, wrapped: set<Window>)
      requires c < |usedReliableWindows|
      reads this
    {
      exists v: Window :: v in usedReliableWindows[c] && (w <= v < w + FREE_WINDOWS || v in wrapped)
    }

    /** A command's attempts, times and, at its first attempt, its timeouts. */
    method Stamp(o: Outgoing, serviceTime: Time) returns (now: Outgoing)
      ensures now == Stamped(o, serviceTime, RoundTrip())
      ensures Key(now) == Key(o) && now.sendAttempts == o.sendAttempts + 1
    {
      var timeout, limit := o.roundTripTimeout, o.roundTripTimeoutLimit;
      if timeout == 0 {
        timeout := (roundTripTime + 4 * roundTripTimeVariance) % TIME_SPACE;
        limit := TIMEOUT_LIMIT * timeout % TIME_SPACE;
      }
      now := o.(sendAttempts := o.sendAttempts + 1, roundTripTimeout := timeout,
                roundTripTimeoutLimit := limit, sentTime := serviceTime);
    }

    /** The part of the sending loop that takes the head of the queue onto the wire. */
    method SendHead(serviceTime: Time)
      requires Valid() && outgoingReliableCommands != []
      modifies this`sentReliableCommands, this`outgoingReliableCommands, this`reliableWindows, this`usedReliableWindows
      modifies this`nextTimeout, this`packetsSent, this`reliableDataInTransit
      ensures Valid() && Pending() == old(Pending()) && |reliableWindows| == |old(reliableWindows)|
      ensures outgoingReliableCommands == old(outgoingReliableCommands)[1..]
      ensures sentReliableCommands ==
        old(sentReliableCommands) + [Stamped(old(outgoingReliableCommands)[0], serviceTime, RoundTrip())]
      ensures var o := old(outgoingReliableCommands)[0];
        reliableDataInTransit == (old(reliableDataInTransit) + if o.hasPacket then o.fragmentLength else 0) % TIME_SPACE
      ensures packetsSent == old(packetsSent) + 1
      ensures nextTimeout == if old(sentReliableCommands) == []
        then TimeoutOf(Stamped(old(outgoingReliableCommands)[0], serviceTime, RoundTrip())) else old(nextTimeout)
    {
      hide Accounted, Keys, CountUp, Stamped, TimeoutOf, RoundTrip;
      var o := outgoingReliableCommands[0];
      var c, w := o.channel, o.sequence / WINDOW_SIZE;
      var now := Stamp(o, serviceTime);
      if sentReliableCommands == [] {
        nextTimeout := (serviceTime + now.roundTripTimeout) % TIME_SPACE;
        StampedAt(o, serviceTime, RoundTrip());
      }
      HeadSent(reliableWindows, usedReliableWindows, sentReliableCommands, outgoingReliableCommands, now);
      if c < |reliableWindows| && o.sendAttempts < 1 { CountIn(c, w); }
      sentReliableCommands := sentReliableCommands + [now];
      outgoingReliableCommands := outgoingReliableCommands[1..];
      if o.hasPacket {
        reliableDataInTransit := (reliableDataInTransit + o.fragmentLength) % TIME_SPACE;
      }
      packetsSent := packetsSent + 1;
    }

    /** The check of the counters is the check of the commands themselves. */
    lemma ChecksCounters(wrapped: Window -> set<Window>)
      requires Valid() && outgoingReliableCommands != []
      ensures |reliableWindows| == |usedReliableWindows|
      ensures var o := outgoingReliableCommands[0];
        var c, w := o.channel, WindowOf(o.sequence);
        (c < |reliableWindows| ==> |reliableWindows[c]| == WINDOWS) &&
        (HeldBack(sentReliableCommands, outgoingReliableCommands, |reliableWindows|, wrapped) <==>
          c < |reliableWindows| && o.sendAttempts < 1 && o.sequence % WINDOW_SIZE == 0 &&
          (reliableWindows[c][(w + WINDOWS - 1) % WINDOWS] >= WINDOW_SIZE || Obstructed(c, w, wrapped(w))))
    {
      hide Count;
      var c := outgoingReliableCommands[0].channel;
      if c < |reliableWindows| {
        assert ChannelOk(reliableWindows[c], usedReliableWindows[c], sentReliableCommands, outgoingReliableCommands, c);
      }
    }

    /** The tests the sending loop makes of the head of the queue, in their order; left is the room for bytes. */
    method TestHead(left: int, wrapped: Window -> set<Window>, commands: nat, buffers: nat) returns (fate: Fate)
      requires Valid() && outgoingReliableCommands != []
      ensures fate == FateOf(outgoingReliableCommands[0],
        HeldBack(sentReliableCommands, outgoingReliableCommands, |reliableWindows|, wrapped),
        commands, buffers, left, reliableDataInTransit, windowSize)
      ensures fate == Goes ==> 0 < commands && 2 <= buffers
    {
      hide HeldBack, Valid;
      var o := outgoingReliableCommands[0];
      var c, w := o.channel, o.sequence / WINDOW_SIZE;
      ChecksCounters(wrapped);
      if c < |reliableWindows| && o.sendAttempts < 1 && o.sequence % WINDOW_SIZE == 0 &&
         (reliableWindows[c][(w + WINDOWS - 1) % WINDOWS] >= WINDOW_SIZE || Obstructed(c, w, wrapped(w))) {
        return Waits;
      }
      if commands == 0 || buffers < 2 || 0 <= left < o.commandSize { return Full; }
      if o.hasPacket {
        if (reliableDataInTransit + o.fragmentLength) % TIME_SPACE > windowSize { return Waits; }
        if left % 0x1_0000 < (o.commandSize + o.fragmentLength) % 0x1_0000 { return Full; }
      }
      return Goes;
    }

    /** enet_protocol_send_reliable_outgoing_commands: sends from the head of the queue until a window
        is full, the datagram or the transit limit is reached, or the queue is empty. */
    method SendReliable(serviceTime: Time, mtu: nat, wrapped: Window -> set<Window>,
                        packetSize: nat, commandRoom: nat, bufferRoom: nat)
        returns (size: nat, continueSending: bool, ghost n: nat)
      requires Valid()
      modifies this`sentReliableCommands, this`outgoingReliableCommands, this`reliableWindows, this`usedReliableWindows
      modifies this`nextTimeout, this`packetsSent, this`reliableDataInTransit
      ensures Valid() && Pending() == old(Pending()) && |reliableWindows| == |old(reliableWindows)|
      ensures var s := old(Sends(serviceTime, mtu - packetSize, wrapped, commandRoom, bufferRoom));
        && s.Fills(n) && (continueSending <==> n < |s.queue| && s.FateAt(n) == Full)
        && var gone := s.queue[..n];
        && outgoingReliableCommands == s.queue[n..]
        && sentReliableCommands == s.sent + StampedAll(gone, serviceTime, s.roundTrip)
        && size == packetSize + OctetsOf(gone)
        && reliableDataInTransit == (s.inTransit + DataOf(gone)) % TIME_SPACE
        && (s.Short() && packetSize <= mtu < 0x1_0000 ==> size <= mtu)
      ensures Excess() == old(Excess())
      ensures reliableDataInTransit == old(reliableDataInTransit)
        || reliableDataInTransit <= windowSize == old(windowSize)
      ensures packetsSent == old(packetsSent) + n
      ensures nextTimeout == if old(sentReliableCommands) == [] && n > 0
        then TimeoutOf(Stamped(old(outgoingReliableCommands)[0], serviceTime, old(RoundTrip()))) else old(nextTimeout)
    {
      hide Valid, Pending, HeldBack, OctetsOf, BuffersOf, FateOf, SentSoFar, Sending.FateAt, Sending.Short, RoundTrip,
        Difference;
      size, continueSending, n := packetSize, false, 0;
      var commands: nat, buffers: nat := commandRoom, bufferRoom;
      ghost var s := Sends(serviceTime, mtu - packetSize, wrapped, commandRoom, bufferRoom);
      NoneSent(s, packetsSent, nextTimeout);
      while outgoingReliableCommands != []
        invariant Valid() && Pending() == old(Pending())
        invariant SentSoFar(s, n, old(packetsSent), old(nextTimeout))
        invariant n <= |s.queue| && outgoingReliableCommands == s.queue[n..]
        invariant size == packetSize + OctetsOf(s.queue[..n]) && commands == commandRoom - n
        invariant buffers == bufferRoom - BuffersOf(s.queue[..n])
        invariant forall k :: 0 <= k < n ==> s.FateAt(k) == Goes
        decreases |outgoingReliableCommands|
      {
        var o := outgoingReliableCommands[0];
        var fate := TestHead(mtu - size, wrapped, commands, buffers);
        NextFate(s, n, old(packetsSent), old(nextTimeout));
        if fate != Goes {
          continueSending := fate == Full;
          break;
        }
        SendOn(serviceTime, s, n, old(packetsSent), old(nextTimeout));
        SendTurn(s.queue, n, serviceTime, s.roundTrip);
        commands := commands - 1;
        buffers := buffers - if o.hasPacket then 2 else 1;
        size := size + o.commandSize + if o.hasPacket then o.fragmentLength else 0;
        n := n + 1;
      }
      SentFacts(s, n, old(packetsSent), old(nextTimeout));
      if s.Short() && packetSize <= mtu < 0x1_0000 { FitsDatagram(s, n); }
      TransitLimited(s, n);
      SendingBalances(s.inTransit, s.sent, s.queue[..n], serviceTime, s.roundTrip);
    }

    /** The first n commands of a datagram have been sent. */
    ghost predicate SentSoFar(s: Sending, n: nat, packets: nat, next: Time)
      reads this
    {
      && n <= |s.queue| && outgoingReliableCommands == s.queue[n..]
      && sentReliableCommands == s.sent + StampedAll(s.queue[..n], s.now, s.roundTrip)
      && |reliableWindows| == s.channels && RoundTrip() == s.roundTrip && windowSize == s.windowSize
      && reliableDataInTransit == (s.inTransit + DataOf(s.queue[..n])) % TIME_SPACE
      && packetsSent == packets + n
      && nextTimeout ==
        if s.sent == [] && n > 0 then TimeoutOf(Stamped(s.queue[0], s.now, s.roundTrip)) else next
    }

    lemma NoneSent(s: Sending, packets: nat, next: Time)
      requires s == Sends(s.now, s.room, s.wrapped, s.commandRoom, s.bufferRoom)
      requires packets == packetsSent && next == nextTimeout
      ensures SentSoFar(s, 0, packets, next) && OctetsOf(s.queue[..0]) == 0 == BuffersOf(s.queue[..0])
    {
      NoTurns(s.queue, s.now, s.roundTrip);
    }

    lemma SentFacts(s: Sending, n: nat, packets: nat, next: Time)
      requires SentSoFar(s, n, packets, next)
      ensures n <= |s.queue| && outgoingReliableCommands == s.queue[n..]
      ensures sentReliableCommands == s.sent + StampedAll(s.queue[..n], s.now, s.roundTrip)
      ensures |reliableWindows| == s.channels && windowSize == s.windowSize
      ensures reliableDataInTransit == (s.inTransit + DataOf(s.queue[..n])) % TIME_SPACE
      ensures packetsSent == packets + n
      ensures nextTimeout ==
        if s.sent == [] && n > 0 then TimeoutOf(Stamped(s.queue[0], s.now, s.roundTrip)) else next
    {
    }

    lemma NextFate(s: Sending, n: nat, packets: nat, next: Time)
      requires SentSoFar(s, n, packets, next) && outgoingReliableCommands != []
      ensures n < |s.queue| && outgoingReliableCommands[0] == s.queue[n]
      ensures s.FateAt(n) == FateOf(outgoingReliableCommands[0],
        HeldBack(sentReliableCommands, outgoingReliableCommands, |reliableWindows|, s.wrapped),
        s.commandRoom - n, s.bufferRoom - BuffersOf(s.queue[..n]), s.room - OctetsOf(s.queue[..n]),
        reliableDataInTransit, windowSize)
    {
      hide HeldBack, FateOf;
    }

    /** Command n goes. */
    method SendOn(serviceTime: Time, ghost s: Sending, ghost n: nat, ghost packets: nat, ghost next: Time)
      requires Valid() && SentSoFar(s, n, packets, next) && outgoingReliableCommands != [] && s.now == serviceTime
      modifies this`sentReliableCommands, this`outgoingReliableCommands, this`reliableWindows, this`usedReliableWindows
      modifies this`nextTimeout, this`packetsSent, this`reliableDataInTransit
      ensures Valid() && Pending() == old(Pending()) && SentSoFar(s, n + 1, packets, next)
      ensures n < |s.queue| && outgoingReliableCommands == s.queue[n + 1..]
    {
      hide Valid, Pending, Stamped, StampedAll, DataOf, TimeoutOf;
      if n == 0 {
        NoTurns(s.queue, serviceTime, s.roundTrip);
      } else {
        SomeStamped(s.queue, n, serviceTime, s.roundTrip);
      }
      SendTurn(s.queue, n, serviceTime, s.roundTrip);
      SendHead(serviceTime);
    }

    /** What there is to send, and the room for it. */
    ghost function Sends(now: Time, room: int, wrapped: Window -> set<Window>, commandRoom: nat, bufferRoom: nat)
      : Sending
      reads this
    {
      Sending(outgoingReliableCommands, sentReliableCommands, now, RoundTrip(), |reliableWindows|, wrapped,
        commandRoom, bufferRoom, room, reliableDataInTransit, windowSize)
    }

    /** enet_protocol_remove_sent_reliable_command: the command an acknowledgement is for leaves
        whichever list holds it. Resends come first in the queue, so the search may stop at the first
        command never sent; false when no sent command has the number. */
    method RemoveSent(s: Sequence, channelID: nat) returns (found: bool, ghost o: Outgoing)
      requires Valid()
      modifies this`sentReliableCommands, this`outgoingReliableCommands, this`reliableWindows, this`usedReliableWindows
      modifies this`nextTimeout, this`reliableDataInTransit
      ensures Valid()
      ensures found <==> old(Tried(sentReliableCommands, s, channelID) || Tried(outgoingReliableCommands, s, channelID))
      ensures found ==> Pending() + multiset{(s, channelID)} == old(Pending())
      ensures found && old(Tried(sentReliableCommands, s, channelID)) ==>
        && FirstTaken(old(sentReliableCommands), sentReliableCommands, (s, channelID), o)
        && outgoingReliableCommands == old(outgoingReliableCommands)
      ensures found && !old(Tried(sentReliableCommands, s, channelID)) ==>
        && sentReliableCommands == old(sentReliableCommands)
        && FirstTaken(old(outgoingReliableCommands), outgoingReliableCommands, (s, channelID), o)
      ensures !found ==> sentReliableCommands == old(sentReliableCommands)
      ensures !found ==> outgoingReliableCommands == old(outgoingReliableCommands)
      ensures !found ==> reliableWindows == old(reliableWindows)
      ensures reliableDataInTransit == (old(reliableDataInTransit) - if found then DataOf([o]) else 0) % TIME_SPACE
      ensures found && !old(Tried(sentReliableCommands, s, channelID)) ==>
        Excess() == (old(Excess()) - DataOf([o])) % TIME_SPACE
      ensures !found || old(Tried(sentReliableCommands, s, channelID)) ==> Excess() == old(Excess())
      ensures nextTimeout ==
        if found && sentReliableCommands != [] then TimeoutOf(sentReliableCommands[0]) else old(nextTimeout)
    {
      hide Keys, Count, Accounted, DataOf, TimeoutOf, Without, Pending, Difference;
      ghost var inTransit, sent := reliableDataInTransit, sentReliableCommands;
      o := Outgoing(0, 0, 0, 0, 0, 0, false, 0, 0);
      SentTried();
      var i: nat := 0;
      while i < |sentReliableCommands|
        invariant i <= |sentReliableCommands|
        invariant forall j :: 0 <= j < i ==> Key(sentReliableCommands[j]) != (s, channelID)
      {
        if sentReliableCommands[i].sequence == s && sentReliableCommands[i].channel == channelID { break; }
        i := i + 1;
      }
      if i < |sentReliableCommands| {
        o := sentReliableCommands[i];
        TakeSent(i, s, channelID);
        TakingBalances(inTransit, sent, sentReliableCommands, (s, channelID), o);
      } else {
        var j: nat := 0;
        while j < |outgoingReliableCommands|
          invariant j <= |outgoingReliableCommands|
          invariant forall k :: 0 <= k < j ==> Key(outgoingReliableCommands[k]) != (s, channelID)
        {
          if outgoingReliableCommands[j].sendAttempts < 1 { return false, o; }
          if outgoingReliableCommands[j].sequence == s && outgoingReliableCommands[j].channel == channelID { break; }
          j := j + 1;
        }
        if j == |outgoingReliableCommands| { return false, o; }
        o := outgoingReliableCommands[j];
        TakeQueued(j, s, channelID);
        TakingTwice(inTransit, sent, o);
      }
      if sentReliableCommands != [] {
        nextTimeout := (sentReliableCommands[0].sentTime + sentReliableCommands[0].roundTripTimeout) % TIME_SPACE;
        TimeoutIs(sentReliableCommands[0]);
      }
      found := true;
    }

    /** What was sent has been tried, and in the queue what was tried comes first. */
    lemma SentTried()
      requires Valid()
      ensures AllTried(sentReliableCommands) && ResendsFirst(outgoingReliableCommands)
    {
    }

    /** An acknowledged command leaves the sent ones, and their accounts. */
    method TakeSent(i: nat, s: Sequence, channelID: nat)
      requires Valid() && i < |sentReliableCommands| && Key(sentReliableCommands[i]) == (s, channelID)
      modifies this`sentReliableCommands, this`reliableWindows, this`usedReliableWindows, this`reliableDataInTransit
      ensures Valid() && Pending() + multiset{(s, channelID)} == old(Pending())
      ensures sentReliableCommands == Without(old(sentReliableCommands), i)
      ensures reliableDataInTransit ==
        (old(reliableDataInTransit) - DataOf([old(sentReliableCommands)[i]])) % TIME_SPACE
    {
      hide Keys, Count;
      ghost var sent, outgoing := sentReliableCommands, outgoingReliableCommands;
      RemovedFromSent(reliableWindows, usedReliableWindows, sent, outgoing, i);
      Removed(reliableWindows, usedReliableWindows, sent, outgoing, Without(sent, i), outgoing, sent[i]);
      CountOut(channelID, s / WINDOW_SIZE);
      Landed(sentReliableCommands[i]);
      sentReliableCommands := Without(sentReliableCommands, i);
    }

    /** Or one waiting to be sent again leaves the queue. */
    method TakeQueued(j: nat, s: Sequence, channelID: nat)
      requires Valid() && j < |outgoingReliableCommands| && Key(outgoingReliableCommands[j]) == (s, channelID)
      requires outgoingReliableCommands[j].sendAttempts >= 1
      modifies this`outgoingReliableCommands, this`reliableWindows, this`usedReliableWindows, this`reliableDataInTransit
      ensures Valid() && Pending() + multiset{(s, channelID)} == old(Pending())
      ensures outgoingReliableCommands == Without(old(outgoingReliableCommands), j)
      ensures reliableDataInTransit ==
        (old(reliableDataInTransit) - DataOf([old(outgoingReliableCommands)[j]])) % TIME_SPACE
    {
      hide Keys, Count;
      ghost var sent, outgoing := sentReliableCommands, outgoingReliableCommands;
      RemovedFromQueue(reliableWindows, usedReliableWindows, sent, outgoing, j);
      Removed(reliableWindows, usedReliableWindows, sent, outgoing, sent, Without(outgoing, j), outgoing[j]);
      CountOut(channelID, s / WINDOW_SIZE);
      Landed(outgoingReliableCommands[j]);
      outgoingReliableCommands := Without(outgoingReliableCommands, j);
    }

    /** The data of an acknowledged command is no longer in transit. */
    method Landed(o: Outgoing)
      modifies this`reliableDataInTransit
      ensures reliableDataInTransit == (old(reliableDataInTransit) - DataOf([o])) % TIME_SPACE
    {
      DataOfOne(o);
      if o.hasPacket {
        reliableDataInTransit := (reliableDataInTransit - o.fragmentLength) % TIME_SPACE;
      }
    }

    /** The counters' share of a first sending. */
    method CountIn(c: nat, w: Window)
      requires c < |reliableWindows| == |usedReliableWindows| && |reliableWindows[c]| == WINDOWS
      modifies this`reliableWindows, this`usedReliableWindows
      ensures reliableWindows == CountUp(old(reliableWindows), c, w)
      ensures usedReliableWindows == old(usedReliableWindows)[c := old(usedReliableWindows)[c] + {w}]
    {
      usedReliableWindows := usedReliableWindows[c := usedReliableWindows[c] + {w}];
      reliableWindows := CountUp(reliableWindows, c, w);
    }

    /** The counters' share of an acknowledgement. */
    method CountOut(channelID: nat, w: Window)
      requires |reliableWindows| == |usedReliableWindows|
      requires channelID < |reliableWindows| ==> |reliableWindows[channelID]| == WINDOWS
      modifies this`reliableWindows, this`usedReliableWindows
      ensures if channelID < |old(reliableWindows)| && old(reliableWindows)[channelID][w] > 0
        then reliableWindows == CountDown(old(reliableWindows), channelID, w) &&
          usedReliableWindows == (if old(reliableWindows)[channelID][w] == 1
            then old(usedReliableWindows)[channelID := old(usedReliableWindows)[channelID] - {w}]
            else old(usedReliableWindows))
        else reliableWindows == old(reliableWindows) && usedReliableWindows == old(usedReliableWindows)
    {
      if channelID < |reliableWindows| {
        if reliableWindows[channelID][w] > 0 {
          reliableWindows := CountDown(reliableWindows, channelID, w);
          if reliableWindows[channelID][w] == 0 {
            usedReliableWindows := usedReliableWindows[channelID := usedReliableWindows[channelID] - {w}];
          }
        }
      }
    }
  }

  lemma ChannelCounters(windows: seq<Counters>, used: seq<set<Window>>, sent: seq<Outgoing>, outgoing: seq<Outgoing>)
    requires Accounted(windows, used, sent, outgoing)
    ensures |windows| == |used| && forall c :: 0 <= c < |windows| ==> |windows[c]| == WINDOWS
  {
    forall c | 0 <= c < |windows| ensures |windows[c]| == WINDOWS {
      assert ChannelOk(windows[c], used[c], sent, outgoing, c);
    }
  }

  /** Whether the head of the queue is sent for the first time or again, its counter is right. */
  lemma HeadSent(windows: seq<Counters>, used: seq<set<Window>>, sent: seq<Outgoing>, outgoing: seq<Outgoing>,
                 now: Outgoing)
    requires Accounted(windows, used, sent, outgoing) && outgoing != []
    requires Key(now) == Key(outgoing[0]) && now.sendAttempts == outgoing[0].sendAttempts + 1
    ensures |windows| == |used| && (now.channel < |windows| ==> |windows[now.channel]| == WINDOWS)
    ensures Keys(sent + [now]) + Keys(outgoing[1..]) == Keys(sent) + Keys(outgoing)
    ensures var w, c := WindowOf(now.sequence), now.channel;
      if c < |windows| && outgoing[0].sendAttempts < 1 then
        Accounted(CountUp(windows, c, w), used[c := used[c] + {w}], sent + [now], outgoing[1..])
      else
        Accounted(windows, used, sent + [now], outgoing[1..])
  {
    hide Keys, Accounted, CountUp;
    ChannelCounters(windows, used, sent, outgoing);
    assert With(sent, |sent|, now) == sent + [now];
    assert Without(outgoing, 0) == outgoing[1..];
    WithKeys(sent, |sent|, now);
    WithoutKeys(outgoing, 0);
    if outgoing[0].sendAttempts < 1 {
      SentFirst(windows, used, sent, outgoing, now);
    } else {
      SentAgain(windows, used, sent, outgoing, now);
    }
  }

  /** What sending and checking do to one command alone. */
  lemma SentAlone(s: Sending, n: nat)
    requires |s.queue| == 1 && s.sent == [] && s.Fills(n) && s.queue[0].sequence % WINDOW_SIZE != 0
    requires s.commandRoom > 0 && s.bufferRoom >= 2 && s.Short() && s.room < 0x1_0000
    requires s.queue[0].commandSize + s.queue[0].fragmentLength <= s.room
    requires s.inTransit + s.queue[0].fragmentLength <= s.windowSize
    ensures n == 1 && s.queue[..n] == s.queue && s.queue[n..] == []
    ensures StampedAll(s.queue, s.now, s.roundTrip) == [Stamped(s.queue[0], s.now, s.roundTrip)]
    ensures DataOf(s.queue) == if s.queue[0].hasPacket then s.queue[0].fragmentLength else 0
  {
    NoTurns(s.queue, s.now, s.roundTrip);
    assert s.FateAt(0) == Goes;
  }

  lemma BackAlone(o: Outgoing, now: Time)
    requires !InTime(o, now)
    ensures StillInTime([o], now) == [] && TimedOut([o], now) == [Again(o)]
    ensures GivenUpAt(0, [o], now, 0) <==> Hopeless(o, o.sentTime, now)
    ensures [o][..0] == [o][1..] == [] && [o][..1] == [o]
  {
    assert [o][..0] == [o][..|[o]| - 1] == [] && [o][..1] == [o][..0 + 1] == [o];
    assert Earliest(0, [], now) == 0 && Earliest(0, [o], now) == o.sentTime;
  }

  /** A command of 1000 bytes is sent. */
  method SendFirst() returns (p: Peer, ghost o: Outgoing)
    ensures p.Valid() && p.sentReliableCommands == [o] && p.outgoingReliableCommands == [] && fresh(p)
    ensures p.earliestTimeout == 0 && p.windowSize == 32768 && p.reliableDataInTransit == 1000
    ensures o == Stamped(Outgoing(1, 0, 0, 0, 0, 0, true, 1000, 6), 1000, 500)
  {
    hide Accounted, Sending.Fills, StampedAll, DataOf, OctetsOf, Stamped, Difference, Keys;
    p := new Peer(1);
    var first := Outgoing(1, 0, 0, 0, 0, 0, true, 1000, 6);
    o := Stamped(first, 1000, 500);
    p.Queue(first);
    var wrapped: Window -> set<Window> := _ => {};
    ghost var s := p.Sends(1000, 1396, wrapped, 32, 65);
    var size, continueSending;
    ghost var n;
    size, continueSending, n := p.SendReliable(1000, 1400, wrapped, 4, 32, 65);
    SentAlone(s, n);
  }

  /** Its time is up, and it is acknowledged before it goes again. */
  method AcknowledgeQueued(p: Peer, ghost o: Outgoing)
    requires p.Valid() && p.sentReliableCommands == [o] && p.outgoingReliableCommands == []
    requires o == Stamped(Outgoing(1, 0, 0, 0, 0, 0, true, 1000, 6), 1000, 500)
    requires p.earliestTimeout == 0 && p.reliableDataInTransit == 1000
    modifies p
    ensures p.Valid() && p.sentReliableCommands == [] && p.outgoingReliableCommands == []
    ensures p.windowSize == old(p.windowSize) && p.reliableDataInTransit == TIME_SPACE - 1000
  {
    hide Accounted, StillInTime, TimedOut, GivenUpAt, DataOf, Difference, Keys, Earliest;
    BackAlone(o, 1500);
    ghost var k;
    var disconnected;
    disconnected, k := p.CheckTimeouts(1500);
    DataOfOne(Again(o));
    assert p.sentReliableCommands == [] && p.outgoingReliableCommands == [Again(o)];
    assert p.outgoingReliableCommands[0].sendAttempts >= 1 && Key(p.outgoingReliableCommands[0]) == (1, 0);
    assert Tried(p.outgoingReliableCommands, 1, 0);
    var found;
    ghost var o';
    found, o' := p.RemoveSent(1, 0);
    DataOfOne(o');
  }

  /** Then nothing is in flight, and yet a packet of 500 bytes has to wait, in an empty datagram. */
  method TakenOffTwice() returns (p: Peer, size: nat, continueSending: bool)
    ensures p.Valid() && p.sentReliableCommands == [] && p.reliableDataInTransit == TIME_SPACE - 1000
    ensures |p.outgoingReliableCommands| == 1 && p.outgoingReliableCommands[0].fragmentLength == 500
    ensures size == 4 && !continueSending
  {
    hide Accounted, StampedAll, OctetsOf, Stamped, Keys;
    ghost var first;
    p, first := SendFirst();
    AcknowledgeQueued(p, first);
    var second := Outgoing(2, 0, 0, 0, 0, 0, true, 500, 6);
    p.Queue(second);
    var wrapped: Window -> set<Window> := _ => {};
    ghost var s := p.Sends(1500, 1396, wrapped, 32, 65);
    StalledExactly(s, 1000);
    NoTurns(s.queue, s.now, s.roundTrip);
    ghost var n;
    size, continueSending, n := p.SendReliable(1500, 1400, wrapped, 4, 32, 65);
  }
}
