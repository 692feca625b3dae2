/** Unsequenced packets (enet/protocol.c): each is delivered at most once, whatever the network repeats. */
module Unsequenced {
  const WINDOW_SIZE: int := 1024
  const FREE_WINDOWS: int := 32
  const AHEAD: int := FREE_WINDOWS * WINDOW_SIZE
  const GROUPS: int := 0x1_0000

  type Group = x: int | 0 <= x < 0x1_0000

  /** The peer's incomingUnsequencedGroup and unsequencedWindow. */
  datatype Window = Window(base: Group, taken: seq<bool>)

  predicate WindowOk(w: Window) {
    |w.taken| == WINDOW_SIZE && w.base % WINDOW_SIZE == 0
  }

  function NoneTaken(): (s: seq<bool>)
    ensures |s| == WINDOW_SIZE && forall k :: 0 <= k < WINDOW_SIZE ==> !s[k]
  {
    seq(WINDOW_SIZE, k => false)
  }

  /** Whether the packet of a group is delivered, and the window behind it. */
  function Receive(w: Window, group: Group): (r: (Window, bool))
    requires WindowOk(w)
    ensures WindowOk(r.0)
  {
    var index := group % WINDOW_SIZE;
    if (group - w.base) % GROUPS >= AHEAD then (w, false)
    else if group - index != w.base then (Window(group - index, NoneTaken()[index := true]), true)
    else if w.taken[index] then (w, false)
    else (w.(taken := w.taken[index := true]), true)
  }

  /** The distance the handler computes is that around the circle of numbers. */
  lemma Ahead(group: Group, base: Group)
    ensures (group - base) % GROUPS == (if group < base then group + GROUPS else group) - base
    ensures (if group < base then group + GROUPS else group) % GROUPS == group
    ensures (if group < base then group + GROUPS else group) % WINDOW_SIZE == group % WINDOW_SIZE
  {
  }

  /** The peer's fields, as the handler changes them. */
  class Peer {
    var incomingUnsequencedGroup: Group
    const unsequencedWindow: array<bool>

    ghost predicate Valid()
      reads this, unsequencedWindow
    {
      unsequencedWindow.Length == WINDOW_SIZE && incomingUnsequencedGroup % WINDOW_SIZE == 0
    }

    ghost function View(): (w: Window)
      requires Valid()
      reads this, unsequencedWindow
      ensures WindowOk(w)
    {
      Window(incomingUnsequencedGroup, unsequencedWindow[..])
    }

    constructor ()
      ensures Valid() && View() == Window(0, NoneTaken())
    {
      incomingUnsequencedGroup := 0;
      unsequencedWindow := new bool[WINDOW_SIZE](k => false);
      new;
      assert unsequencedWindow[..] == NoneTaken();
    }

    /** enet_protocol_handle_send_unsequenced: whether the packet is queued. */
    method HandleSendUnsequenced(group: Group) returns (queued: bool)
      requires Valid()
      modifies this, unsequencedWindow
      ensures Valid() && (View(), queued) == Receive(old(View()), group)
    {
      Ahead(group, incomingUnsequencedGroup);
      var unsequencedGroup: int := group;
      var index := unsequencedGroup % WINDOW_SIZE;
      if unsequencedGroup < incomingUnsequencedGroup {
        unsequencedGroup := unsequencedGroup + 0x10000;
      }
      if unsequencedGroup >= incomingUnsequencedGroup + FREE_WINDOWS * WINDOW_SIZE {
        return false;
      }
      unsequencedGroup := unsequencedGroup % 0x10000;
      if unsequencedGroup - index != incomingUnsequencedGroup {
        incomingUnsequencedGroup := unsequencedGroup - index;
        forall k | 0 <= k < WINDOW_SIZE {
          unsequencedWindow[k] := false;
        }
        assert unsequencedWindow[..] == NoneTaken();
      } else if unsequencedWindow[index] {
        return false;
      }
      unsequencedWindow[index] := true;
      return true;
    }
  }

  /** What the world knows of a window: the true number of its first group, and what was delivered. */
  datatype World = World(window: Window, base: nat, log: seq<nat>)

  /** The window is that of the true base; nothing behind it was delivered, and its bits tell what in it was. */
  ghost predicate WorldOk(w: World) {
    && WindowOk(w.window) && w.base % WINDOW_SIZE == 0 && w.window.base == w.base % GROUPS
    && (forall t :: t in w.log ==> t < w.base + WINDOW_SIZE)
    && (forall k {:trigger w.window.taken[k]} :: 0 <= k < WINDOW_SIZE ==> w.window.taken[k] == (w.base + k in w.log))
    && Distinct(w.log)
  }

  ghost predicate Distinct(log: seq<nat>) {
    forall i, j :: 0 <= i < j < |log| ==> log[i] != log[j]
  }

  /** An arrival is not too late, nor a whole turn of the numbers ahead. */
  predicate Timely(base: nat, t: nat) {
    base - AHEAD <= t < base + GROUPS
  }

  /** The packet with true number t arrives. */
  function Arrive(w: World, t: nat): (r: World)
    requires WindowOk(w.window)
    ensures WindowOk(r.window)
  {
    var (window, queued) := Receive(w.window, t % GROUPS);
    if !queued then w.(window := window)
    else World(window, if t - t % WINDOW_SIZE > w.base then t - t % WINDOW_SIZE else w.base, w.log + [t])
  }

  lemma SameIndex(t: nat)
    ensures (t % GROUPS) % WINDOW_SIZE == t % WINDOW_SIZE
  {
  }

  lemma SameDistance(base: nat, t: nat)
    ensures (t % GROUPS - base % GROUPS) % GROUPS == (t - base) % GROUPS
  {
  }

  lemma SameStart(t: nat)
    ensures t % GROUPS - t % WINDOW_SIZE == (t - t % WINDOW_SIZE) % GROUPS
  {
    var q, g := t / GROUPS, t % GROUPS;
    assert t == q * GROUPS + g;
    assert t % WINDOW_SIZE == g % WINDOW_SIZE <= g by { SameIndex(t); }
    Remainder(t - t % WINDOW_SIZE, q, g - g % WINDOW_SIZE);
  }

  lemma Remainder(x: int, q: int, r: int)
    requires x == q * GROUPS + r && 0 <= r < GROUPS
    ensures x % GROUPS == r
  {
  }

  lemma Distance(d: int)
    ensures 0 <= d < GROUPS ==> d % GROUPS == d
    ensures -GROUPS <= d < 0 ==> d % GROUPS == d + GROUPS
  {
  }

  lemma Residues(base: nat, t: nat)
    ensures (t % GROUPS) % WINDOW_SIZE == t % WINDOW_SIZE
    ensures (t % GROUPS - base % GROUPS) % GROUPS == (t - base) % GROUPS
    ensures t % GROUPS - t % WINDOW_SIZE == (t - t % WINDOW_SIZE) % GROUPS
    ensures base <= t < base + GROUPS ==> (t - base) % GROUPS == t - base
    ensures base - GROUPS <= t < base ==> (t - base) % GROUPS == t - base + GROUPS
  {
    SameIndex(t);
    SameDistance(base, t);
    SameStart(t);
    Distance(t - base);
  }

  /** A packet is delivered exactly if it is new and lies within the free windows; the base only moves on. */
  lemma ArriveOk(w: World, t: nat)
    requires WorldOk(w) && Timely(w.base, t)
    ensures WorldOk(Arrive(w, t)) && w.base <= Arrive(w, t).base
    ensures Arrive(w, t).log == if t !in w.log && w.base <= t < w.base + AHEAD then w.log + [t] else w.log
  {
    Residues(w.base, t);
    if w.base <= t < w.base + AHEAD {
      if t < w.base + WINDOW_SIZE {
        ArriveHere(w, t);
      } else {
        ArriveAhead(w, t);
      }
    }
  }

  /** Within the window: the packet's bit is set, or was. */
  lemma ArriveHere(w: World, t: nat)
    requires WorldOk(w) && w.base <= t < w.base + WINDOW_SIZE
    ensures var k := t - w.base;
      Arrive(w, t) ==
        if t in w.log then w else World(w.window.(taken := w.window.taken[k := true]), w.base, w.log + [t])
    ensures WorldOk(Arrive(w, t))
  {
    Residues(w.base, t);
    Taken(w, t);
    if t !in w.log { DistinctSnoc(w.log, t); }
  }

  /** Ahead of it: the window moves there, with the packet alone. */
  lemma ArriveAhead(w: World, t: nat)
    requires WorldOk(w) && w.base + WINDOW_SIZE <= t < w.base + AHEAD
    ensures var index := t % WINDOW_SIZE;
      Arrive(w, t) == World(Window((t - index) % GROUPS, NoneTaken()[index := true]), t - index, w.log + [t])
    ensures WorldOk(Arrive(w, t))
  {
    hide Distinct;
    Residues(w.base, t);
    SameWindow(w.base, t);
    DistinctSnoc(w.log, t);
    MovedOk(w, t);
  }

  /** Behind a base that moved, only the packet itself is known in the window. */
  lemma MovedOk(w: World, t: nat)
    requires WorldOk(w) && w.base + WINDOW_SIZE <= t - t % WINDOW_SIZE
    ensures forall x :: t - t % WINDOW_SIZE <= x < t - t % WINDOW_SIZE + WINDOW_SIZE ==> (x in w.log + [t] <==> x == t)
  {
    hide Distinct;
  }

  /** A group is in the window of the base by number only if it is in it. */
  lemma SameWindow(base: nat, t: nat)
    requires base % WINDOW_SIZE == 0 && base + WINDOW_SIZE <= t < base + GROUPS
    ensures t % GROUPS - t % WINDOW_SIZE != base % GROUPS
    ensures (t - t % WINDOW_SIZE) % WINDOW_SIZE == 0 && base + WINDOW_SIZE <= t - t % WINDOW_SIZE
    ensures (t - t % WINDOW_SIZE) % GROUPS % WINDOW_SIZE == 0
  {
  }

  lemma WindowByNumber(base: nat, t: nat)
    requires base % WINDOW_SIZE == 0
    ensures t % GROUPS - t % WINDOW_SIZE == base % GROUPS <==> (t - base) % GROUPS < WINDOW_SIZE
  {
    SameDistance(base, t);
    SameIndex(t);
    SameIndex(base);
    InWindow(t % GROUPS, base % GROUPS);
  }

  lemma InWindow(group: Group, base: Group)
    requires base % WINDOW_SIZE == 0
    ensures group - group % WINDOW_SIZE == base <==> (group - base) % GROUPS < WINDOW_SIZE
  {
  }

  lemma DistinctSnoc(log: seq<nat>, t: nat)
    requires Distinct(log) && t !in log
    ensures Distinct(log + [t])
  {
  }

  /** Within the window, the bit tells whether the packet was delivered. */
  lemma Taken(w: World, t: nat)
    requires WorldOk(w) && w.base <= t < w.base + WINDOW_SIZE
    ensures t % WINDOW_SIZE == t - w.base && w.window.taken[t % WINDOW_SIZE] == (t in w.log)
  {
    assert w.window.taken[t - w.base] == (w.base + (t - w.base) in w.log);
  }

  function Run(w: World, arrivals: seq<nat>): (r: World)
    requires WindowOk(w.window)
    ensures WindowOk(r.window)
  {
    if arrivals == [] then w else Arrive(Run(w, arrivals[..|arrivals| - 1]), arrivals[|arrivals| - 1])
  }

  /** A run in which every arrival is timely. */
  ghost predicate TimelyRun(w: World, arrivals: seq<nat>)
    requires WindowOk(w.window)
  {
    forall n :: 0 <= n < |arrivals| ==> Timely(Run(w, arrivals[..n]).base, arrivals[n])
  }

  const BEGIN: World := World(Window(0, NoneTaken()), 0, [])

  lemma BeginOk()
    ensures WorldOk(BEGIN)
  {
  }

  /** No packet is delivered twice, in any run. */
  lemma {:induction false} AtMostOnce(arrivals: seq<nat>)
    requires TimelyRun(BEGIN, arrivals)
    ensures WorldOk(Run(BEGIN, arrivals))
    ensures var log := Run(BEGIN, arrivals).log; Distinct(log) && forall t :: t in log ==> t in arrivals
  {
    hide Arrive, Distinct;
    BeginOk();
    if arrivals != [] {
      var n := |arrivals| - 1;
      assert forall k :: 0 <= k < n ==> arrivals[..n][..k] == arrivals[..k];
      AtMostOnce(arrivals[..n]);
      ArriveOk(Run(BEGIN, arrivals[..n]), arrivals[n]);
    }
  }

  /** A duplicate of a delivered packet is delivered again exactly if its distance behind the base is in
      the first half of a turn of the numbers, and its place in the window it is taken for is free. */
  lemma TakenAgain(w: World, t: nat)
    requires WorldOk(w) && t in w.log
    ensures var ahead := (t - w.base) % GROUPS;
      (Arrive(w, t).log != w.log) ==
        (t < w.base && ahead < AHEAD && (ahead >= WINDOW_SIZE || !w.window.taken[t % WINDOW_SIZE]))
  {
    Residues(w.base, t);
    if w.base <= t { Taken(w, t); } else { WindowByNumber(w.base, t); }
  }

  function ThreeArrivals(): (w: World)
    ensures WindowOk(w.window)
  {
    Arrive(Arrive(Arrive(BEGIN, 1), 20480), 33792)
  }

  lemma ThreeDelivered()
    ensures WorldOk(ThreeArrivals()) && ThreeArrivals().base == 33792 && ThreeArrivals().log == [1, 20480, 33792]
    ensures Arrive(BEGIN, 1).base == 0 && Arrive(Arrive(BEGIN, 1), 20480).base == 20480
  {
    hide Arrive, WorldOk;
    BeginOk();
    ArriveOk(BEGIN, 1);
    ArriveHere(BEGIN, 1);
    var w := Arrive(BEGIN, 1);
    assert w.base == 0 && w.log == [1];
    ArriveAhead(w, 20480);
    w := Arrive(w, 20480);
    assert w.base == 20480 && w.log == [1, 20480];
    ArriveAhead(w, 33792);
  }

  /** The packet of group 1 is delivered, the base moves 33 windows on, and it is delivered again. */
  lemma DeliveredTwice()
    ensures var arrivals := [1, 20480, 33792];
      TimelyRun(BEGIN, arrivals) && Run(BEGIN, arrivals + [1]).log == arrivals + [1]
  {
    hide Arrive, WorldOk, Run;
    ThreeDelivered();
    RunOn(BEGIN, [], 1);
    RunOn(BEGIN, [1], 20480);
    RunOn(BEGIN, [1, 20480], 33792);
    RunOn(BEGIN, [1, 20480, 33792], 1);
    var arrivals := [1, 20480, 33792];
    assert [] + [1] == [1] && [1] + [20480] == [1, 20480] && [1, 20480] + [33792] == arrivals;
    assert arrivals[..0] == [] && arrivals[..1] == [1] && arrivals[..2] == [1, 20480];
    TakenAgain(ThreeArrivals(), 1);
    ArriveLogs(ThreeArrivals(), 1);
  }

  lemma RunOn(w: World, arrivals: seq<nat>, t: nat)
    requires WindowOk(w.window)
    ensures Run(w, arrivals + [t]) == Arrive(Run(w, arrivals), t) && Run(w, []) == w
  {
    assert (arrivals + [t])[..|arrivals|] == arrivals;
  }

  lemma ArriveLogs(w: World, t: nat)
    requires WindowOk(w.window)
    ensures Arrive(w, t).log == w.log || Arrive(w, t).log == w.log + [t]
  {
  }
}
