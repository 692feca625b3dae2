/** Token buckets of one bufferevent (libevent2/bufferevent_ratelim.c): how they refill, and when the
    bufferevent is held and released. */
module TokenBucket {
  const SIZE_SPACE: int := 0x1_0000_0000_0000_0000
  const TICK_SPACE: int := 0x1_0000_0000
  const INT_MAX: int := 0x7FFF_FFFF
  const RATE_LIMIT_MAX: int := 0x7FFF_FFFF_FFFF_FFFF
  const MAX_EVER: int := 16384

  type Limit = x: int | -0x8000_0000_0000_0000 <= x <= 0x7FFF_FFFF_FFFF_FFFF
  type Tick = x: int | 0 <= x < 0x1_0000_0000

  /** One direction's rate and burst, as ev_token_bucket_cfg_new lets them be. */
  datatype Rate = Rate(rate: nat, maximum: nat)

  predicate RateOk(r: Rate) {
    1 <= r.rate <= r.maximum <= RATE_LIMIT_MAX
  }

  /** What the naive computation would leave. */
  function Clipped(limit: int, r: Rate, ticks: nat): int {
    if limit + ticks * r.rate > r.maximum then r.maximum else limit + ticks * r.rate
  }

  /** The quotient the code compares, of an unsigned difference. */
  function Room(limit: int, r: Rate, ticks: nat): nat
    requires 0 < ticks
  {
    (r.maximum - limit) % SIZE_SPACE / ticks
  }

  /** ev_token_bucket_update for one direction: divided, so that nothing overflows. */
  function Refilled(limit: int, r: Rate, ticks: nat): int
    requires 0 < ticks
  {
    if Room(limit, r, ticks) < r.rate then r.maximum else Signed(limit + ticks * r.rate)
  }

  /** A sum as the 64-bit limit holds it. */
  function Signed(x: int): (s: Limit)
    ensures -RATE_LIMIT_MAX - 1 <= x <= RATE_LIMIT_MAX ==> s == x
    ensures RATE_LIMIT_MAX < x <= RATE_LIMIT_MAX + SIZE_SPACE ==> s == x - SIZE_SPACE
  {
    (x + RATE_LIMIT_MAX + 1) % SIZE_SPACE - RATE_LIMIT_MAX - 1
  }

  /** The ticks since the last update, unless the tick is not after it. */
  function Elapsed(last: Tick, current: Tick): nat {
    var n := (current - last) % TICK_SPACE;
    if n <= INT_MAX then n else 0
  }

  /** Going forward by n ticks is n ticks, unless n is more than an int can hold; then, as going back, it is none. */
  lemma ElapsedIs(last: Tick, n: nat)
    requires n < TICK_SPACE
    ensures Elapsed(last, (last + n) % TICK_SPACE) == if n <= INT_MAX then n else 0
    ensures 0 < n <= INT_MAX + 1 ==> Elapsed((last + n) % TICK_SPACE, last) == 0
  {
  }

  function Brought(limit: int, r: Rate, ticks: nat): int {
    if ticks == 0 then limit else Refilled(limit, r, ticks)
  }

  lemma Quotient(a: nat, n: nat, rate: nat)
    requires 0 < n
    ensures a / n < rate <==> a < n * rate
  {
    var q := a / n;
    assert n * q <= a < n * q + n;
    if q < rate {
      assert n * (q + 1) <= n * rate;
    } else {
      assert n * rate <= n * q;
    }
  }

  /** The division form is the naive computation, exactly if the limit is not above the maximum, or what
      wraps around below it is still too little for the rate, or the sum wraps around to the maximum. */
  lemma RefilledIsClipped(limit: Limit, r: Rate, ticks: nat)
    requires RateOk(r) && 0 < ticks
    ensures Refilled(limit, r, ticks) == Clipped(limit, r, ticks) <==>
      limit <= r.maximum || Room(limit, r, ticks) < r.rate || limit + ticks * r.rate == SIZE_SPACE + r.maximum
  {
    hide Signed;
    RefillRoom(limit, r, ticks);
  }

  /** A refill that does not fill up the bucket adds no more than what the maximum leaves, around the circle. */
  lemma RefillRoom(limit: Limit, r: Rate, ticks: nat)
    requires RateOk(r) && 0 < ticks
    ensures 0 < ticks * r.rate
    ensures r.rate <= Room(limit, r, ticks) <==>
      limit + ticks * r.rate <= if limit <= r.maximum then r.maximum else SIZE_SPACE + r.maximum
  {
    Quotient((r.maximum - limit) % SIZE_SPACE, ticks, r.rate);
    assert ticks * r.rate > 0;
  }

  /** A refill turns a positive limit into one that is not: the sum leaves the 64 bits. */
  predicate Sinks(limit: int, r: Rate, ticks: nat) {
    0 < ticks && 0 < limit && r.rate <= Room(limit, r, ticks) && RATE_LIMIT_MAX < limit + ticks * r.rate <= SIZE_SPACE
  }

  lemma RefillSinks(limit: Limit, r: Rate, ticks: nat)
    requires RateOk(r) && 0 < ticks
    ensures 0 < limit && Refilled(limit, r, ticks) <= 0 <==> Sinks(limit, r, ticks)
    ensures Sinks(limit, r, ticks) ==> limit > r.maximum
  {
    hide Signed;
    RefillRoom(limit, r, ticks);
  }

  /** It takes a limit above its maximum, which only giving bytes back can make. */
  lemma SinksAtTheEnd()
    ensures var r := Rate(0x4000_0000_0000_0000, 0x4000_0000_0000_0000);
      RateOk(r) && Sinks(RATE_LIMIT_MAX, r, 1) && Refilled(RATE_LIMIT_MAX, r, 1) == -0x4000_0000_0000_0001
  {
  }

  /** A limit above its maximum, which only giving bytes back can make, is not clipped but grows. */
  lemma AboveMaximumGrows()
    ensures var r := Rate(10, 100); RateOk(r) && Refilled(150, r, 1) == 160
  {
  }

  /** Refilling after some ticks and then after more is refilling after them all. */
  lemma RefillsCompose(limit: Limit, r: Rate, m: nat, n: nat)
    requires RateOk(r) && limit <= r.maximum && 0 < m && 0 < n
    ensures Refilled(limit, r, m) <= r.maximum
    ensures Refilled(Refilled(limit, r, m), r, n) == Refilled(limit, r, m + n)
  {
    hide Refilled, Room;
    var once := Refilled(limit, r, m);
    RefilledIsClipped(limit, r, m);
    ProductAdds(m, n, r.rate);
    RefilledIsClipped(once, r, n);
    RefilledIsClipped(limit, r, m + n);
  }

  lemma ProductAdds(m: nat, n: nat, rate: nat)
    ensures 0 <= m * rate && 0 <= n * rate && (m + n) * rate == m * rate + n * rate
  {
  }

  /** What the rate grants for a number of ticks. */
  function Allowance(r: Rate, ticks: nat): nat {
    r.rate * ticks
  }

  lemma AllowanceAdds(r: Rate, a: nat, b: nat)
    ensures Allowance(r, a + b) == Allowance(r, a) + Allowance(r, b) && Allowance(r, 0) == 0
  {
    Distributes(r.rate, a, b);
  }

  /** A refill gives no more than the rate of its ticks, and never takes away. */
  lemma RefillGives(limit: Limit, r: Rate, ticks: nat)
    requires RateOk(r) && limit <= r.maximum && 0 < ticks
    ensures limit <= Refilled(limit, r, ticks) <= r.maximum && Refilled(limit, r, ticks) <= limit + Allowance(r, ticks)
  {
    hide Refilled;
    RefilledIsClipped(limit, r, ticks);
    Commutes(ticks, r.rate);
  }

  lemma Commutes(a: nat, b: nat)
    ensures a * b == b * a && 0 <= a * b
  {
  }

  lemma Distributes(r: nat, a: nat, b: nat)
    ensures r * (a + b) == r * a + r * b
  {
  }

  // Runs of one bucket

  datatype Event = Took(bytes: nat) | Passed(ticks: nat)

  function After(limit: int, r: Rate, e: Event): int {
    match e
    case Took(b) => limit - b
    case Passed(n) => if n == 0 then limit else Refilled(limit, r, n)
  }

  function Run(limit: int, r: Rate, events: seq<Event>): int {
    if events == [] then limit else After(Run(limit, r, events[..|events| - 1]), r, events[|events| - 1])
  }

  function Taken(events: seq<Event>): nat {
    if events == [] then 0
    else Taken(events[..|events| - 1]) + if events[|events| - 1].Took? then events[|events| - 1].bytes else 0
  }

  function Ticks(events: seq<Event>): nat {
    if events == [] then 0
    else Ticks(events[..|events| - 1]) + if events[|events| - 1].Passed? then events[|events| - 1].ticks else 0
  }

  /** However the bytes are spread over the ticks, no more of them are taken than the bucket held at the
      start and was given since, less what it holds at the end; and it never holds more than its maximum. */
  lemma {:induction false} TakenBounded(limit: int, r: Rate, events: seq<Event>)
    requires RateOk(r) && limit <= r.maximum
    requires forall k :: 0 <= k < |events| ==> Run(limit, r, events[..k]) >= -RATE_LIMIT_MAX - 1
    ensures Taken(events) <= limit + Allowance(r, Ticks(events)) - Run(limit, r, events)
    ensures Run(limit, r, events) <= r.maximum
  {
    hide Refilled, Allowance;
    AllowanceAdds(r, 0, 0);
    if events != [] {
      var n := |events| - 1;
      var front, e := events[..n], events[n];
      assert forall k :: 0 <= k < n ==> front[..k] == events[..k];
      TakenBounded(limit, r, front);
      var before := Run(limit, r, front);
      match e
      case Took(b) =>
      case Passed(t) =>
        AllowanceAdds(r, Ticks(front), t);
        if t > 0 { RefillGives(before, r, t); }
    }
  }

  // The bufferevent

  /** struct ev_token_bucket_cfg, of which bufferevents may share one. */
  class Config {
    const read: Rate
    const write: Rate

    constructor (read: Rate, write: Rate)
      requires RateOk(read) && RateOk(write)
      ensures this.read == read && this.write == write
    {
      this.read, this.write := read, write;
    }

    predicate Ok() {
      RateOk(read) && RateOk(write)
    }
  }

  /** ev_token_bucket_cfg_new: null for rates out of range. */
  method NewConfig(readRate: nat, readBurst: nat, writeRate: nat, writeBurst: nat) returns (c: Config?)
    ensures c != null <==>
      1 <= readRate <= readBurst <= RATE_LIMIT_MAX && 1 <= writeRate <= writeBurst <= RATE_LIMIT_MAX
    ensures c != null ==> c.Ok() && c.read == Rate(readRate, readBurst) && c.write == Rate(writeRate, writeBurst)
  {
    if readRate > readBurst || writeRate > writeBurst || readRate < 1 || writeRate < 1 { return null; }
    if readRate > RATE_LIMIT_MAX || writeRate > RATE_LIMIT_MAX || readBurst > RATE_LIMIT_MAX ||
       writeBurst > RATE_LIMIT_MAX
    {
      return null;
    }
    c := new Config(Rate(readRate, readBurst), Rate(writeRate, writeBurst));
  }

  /** The bandwidth side of a bufferevent: its bucket, whether it is held for it, and its refill timer. */
  class Bufferevent {
    var cfg: Config?
    var readLimit: Limit
    var writeLimit: Limit
    var lastUpdated: Tick
    var readSuspended: bool
    var writeSuspended: bool
    var timerPending: bool

    /** An exhausted bucket holds the bufferevent, and whatever is held has its refill timer running. */
    ghost predicate Valid()
      reads this
    {
      && (cfg != null ==> cfg.Ok() && (readLimit <= 0 ==> readSuspended) && (writeLimit <= 0 ==> writeSuspended))
      && (readSuspended || writeSuspended ==> cfg != null && timerPending)
      && (timerPending ==> cfg != null)
    }

    constructor ()
      ensures Valid() && cfg == null && readLimit == writeLimit == 0 && lastUpdated == 0
    {
      cfg, readLimit, writeLimit, lastUpdated := null, 0, 0, 0;
      readSuspended, writeSuspended, timerPending := false, false, false;
    }

    /** A direction whose limit a refill would sink is held already. Where it is not, the update leaves it
        without bytes, but not held. */
    predicate HeldIfSinking(ticks: nat)
      requires cfg != null
      reads this
    {
      (Sinks(readLimit, cfg.read, ticks) ==> readSuspended) && (Sinks(writeLimit, cfg.write, ticks) ==> writeSuspended)
    }

    /** ev_token_bucket_update: ticks only count forward. */
    method Update(currentTick: Tick) returns (updated: bool)
      requires cfg != null && cfg.Ok()
      modifies this`readLimit, this`writeLimit, this`lastUpdated
      ensures var n := Elapsed(old(lastUpdated), currentTick);
        && updated == (n > 0) && lastUpdated == (if updated then currentTick else old(lastUpdated))
        && readLimit == Brought(old(readLimit), cfg.read, n) && writeLimit == Brought(old(writeLimit), cfg.write, n)
      ensures var n := Elapsed(old(lastUpdated), currentTick);
        && (old(readLimit) > 0 && readLimit <= 0 <==> Sinks(old(readLimit), cfg.read, n))
        && (old(writeLimit) > 0 && writeLimit <= 0 <==> Sinks(old(writeLimit), cfg.write, n))
    {
      hide Signed;
      var ticks := (currentTick - lastUpdated) % TICK_SPACE;
      if ticks == 0 || ticks > INT_MAX { return false; }
      RefillSinks(readLimit, cfg.read, ticks);
      RefillSinks(writeLimit, cfg.write, ticks);
      if (cfg.read.maximum - readLimit) % SIZE_SPACE / ticks < cfg.read.rate {
        readLimit := cfg.read.maximum;
      } else {
        readLimit := Signed(readLimit + ticks * cfg.read.rate);
      }
      if (cfg.write.maximum - writeLimit) % SIZE_SPACE / ticks < cfg.write.rate {
        writeLimit := cfg.write.maximum;
      } else {
        writeLimit := Signed(writeLimit + ticks * cfg.write.rate);
      }
      lastUpdated := currentTick;
      return true;
    }

    /** _bufferevent_get_read_max without a group: never more than the bucket holds, nor less than none. */
    method ReadMax(currentTick: Tick) returns (most: nat)
      requires Valid()
      modifies this`readLimit, this`writeLimit, this`lastUpdated
      ensures cfg == null ==> Valid() && most == MAX_EVER
      ensures cfg == null ==>
        readLimit == old(readLimit) && writeLimit == old(writeLimit) && lastUpdated == old(lastUpdated)
      ensures cfg != null ==> (Valid() <==> old(HeldIfSinking(Elapsed(lastUpdated, currentTick))))
      ensures var n := Elapsed(old(lastUpdated), currentTick);
        cfg != null ==>
          && readLimit == Brought(old(readLimit), cfg.read, n) && writeLimit == Brought(old(writeLimit), cfg.write, n)
          && lastUpdated == if n > 0 then currentTick else old(lastUpdated)
      ensures cfg != null ==> most == if readLimit < 0 then 0 else readLimit
    {
      if cfg == null { return MAX_EVER; }
      if currentTick != lastUpdated {
        var updated := Update(currentTick);
      }
      return if readLimit < 0 then 0 else readLimit;
    }

    /** _bufferevent_decrement_read_buckets without a group: bytes were read. */
    method DecrementReadBuckets(bytes: nat)
      requires Valid()
      modifies this`readLimit, this`readSuspended, this`timerPending
      ensures Valid()
      ensures cfg == null ==> readLimit == old(readLimit)
      ensures cfg != null ==> readLimit == Signed(old(readLimit) - bytes)
      ensures cfg != null ==> readSuspended == (old(readSuspended) || readLimit <= 0)
      ensures timerPending == (old(timerPending) || (cfg != null && readLimit <= 0))
    {
      if cfg != null {
        readLimit := Signed(readLimit - bytes);
        if readLimit <= 0 {
          readSuspended := true;
          timerPending := true;
        }
      }
    }

    /** _bufferevent_decrement_write_buckets without a group. */
    method DecrementWriteBuckets(bytes: nat)
      requires Valid()
      modifies this`writeLimit, this`writeSuspended, this`timerPending
      ensures Valid()
      ensures cfg == null ==> writeLimit == old(writeLimit)
      ensures cfg != null ==> writeLimit == Signed(old(writeLimit) - bytes)
      ensures cfg != null ==> writeSuspended == (old(writeSuspended) || writeLimit <= 0)
      ensures timerPending == (old(timerPending) || (cfg != null && writeLimit <= 0))
    {
      if cfg != null {
        writeLimit := Signed(writeLimit - bytes);
        if writeLimit <= 0 {
          writeSuspended := true;
          timerPending := true;
        }
      }
    }

    /** bufferevent_decrement_read_limit: an application takes bytes, or gives some back. */
    method DecrementReadLimit(decr: int)
      requires Valid() && cfg != null
      modifies this`readLimit, this`readSuspended, this`timerPending
      ensures Valid() && readLimit == Signed(old(readLimit) - decr)
      ensures readSuspended == if old(readLimit) <= 0 && readLimit > 0 then false
        else (old(readSuspended) || readLimit <= 0)
      ensures timerPending == if old(readLimit) <= 0 && readLimit > 0 then old(timerPending) && writeSuspended
        else (old(timerPending) || readLimit <= 0)
    {
      var oldLimit := readLimit;
      readLimit := Signed(readLimit - decr);
      if oldLimit > 0 && readLimit <= 0 {
        readSuspended := true;
        timerPending := true;
      } else if oldLimit <= 0 && readLimit > 0 {
        if !writeSuspended { timerPending := false; }
        readSuspended := false;
      }
    }

    /** bufferevent_decrement_write_limit */
    method DecrementWriteLimit(decr: int)
      requires Valid() && cfg != null
      modifies this`writeLimit, this`writeSuspended, this`timerPending
      ensures Valid() && writeLimit == Signed(old(writeLimit) - decr)
      ensures writeSuspended == if old(writeLimit) <= 0 && writeLimit > 0 then false
        else (old(writeSuspended) || writeLimit <= 0)
      ensures timerPending == if old(writeLimit) <= 0 && writeLimit > 0 then old(timerPending) && readSuspended
        else (old(timerPending) || writeLimit <= 0)
    {
      var oldLimit := writeLimit;
      writeLimit := Signed(writeLimit - decr);
      if oldLimit > 0 && writeLimit <= 0 {
        writeSuspended := true;
        timerPending := true;
      } else if oldLimit <= 0 && writeLimit > 0 {
        if !readSuspended { timerPending := false; }
        writeSuspended := false;
      }
    }

    /** _bev_refill_callback, when the timer fires: whatever has bytes again is released, and the timer
        runs on exactly if something is still held. */
    method RefillCallback(currentTick: Tick)
      requires Valid() && timerPending
      modifies this`readLimit, this`writeLimit, this`lastUpdated, this`readSuspended, this`writeSuspended
      modifies this`timerPending
      ensures Valid() <==> old(HeldIfSinking(Elapsed(lastUpdated, currentTick)))
      ensures readSuspended == (old(readSuspended) && readLimit <= 0)
        && writeSuspended == (old(writeSuspended) && writeLimit <= 0)
      ensures timerPending == (readSuspended || writeSuspended)
      ensures var n := Elapsed(old(lastUpdated), currentTick);
        && readLimit == Brought(old(readLimit), cfg.read, n) && writeLimit == Brought(old(writeLimit), cfg.write, n)
        && lastUpdated == if n > 0 then currentTick else old(lastUpdated)
    {
      timerPending := false;
      var updated := Update(currentTick);
      var again := false;
      if readSuspended {
        if readLimit > 0 { readSuspended := false; } else { again := true; }
      }
      if writeSuspended {
        if writeLimit > 0 { writeSuspended := false; } else { again := true; }
      }
      if again { timerPending := true; }
    }

    /** ev_token_bucket_init: a bucket in use is only clipped. */
    method InitBucket(c: Config, currentTick: Tick, reinitialize: bool)
      requires c.Ok()
      modifies this`readLimit, this`writeLimit, this`lastUpdated
      ensures readLimit == if reinitialize then Least(old(readLimit), c.read.maximum) else c.read.rate
      ensures writeLimit == if reinitialize then Least(old(writeLimit), c.write.maximum) else c.write.rate
      ensures lastUpdated == if reinitialize then old(lastUpdated) else currentTick
    {
      if reinitialize {
        if readLimit > c.read.maximum { readLimit := c.read.maximum; }
        if writeLimit > c.write.maximum { writeLimit := c.write.maximum; }
      } else {
        readLimit, writeLimit, lastUpdated := c.read.rate, c.write.rate, currentTick;
      }
    }

    /** bufferevent_set_rate_limit */
    method SetRateLimit(c: Config?, currentTick: Tick)
      requires Valid() && (c != null ==> c.Ok())
      modifies this
      ensures Valid() && cfg == c
      ensures c == null ==> !readSuspended && !writeSuspended && !timerPending
      ensures c == null || c == old(cfg) ==>
        readLimit == old(readLimit) && writeLimit == old(writeLimit) && lastUpdated == old(lastUpdated)
      ensures c != null && c == old(cfg) ==>
        && readSuspended == old(readSuspended) && writeSuspended == old(writeSuspended)
        && timerPending == old(timerPending)
      ensures c != null && c != old(cfg) ==>
        && readLimit == (if old(cfg) != null then Least(old(readLimit), c.read.maximum) else c.read.rate)
        && writeLimit == (if old(cfg) != null then Least(old(writeLimit), c.write.maximum) else c.write.rate)
        && readSuspended == (readLimit <= 0) && writeSuspended == (writeLimit <= 0)
        && timerPending == (readSuspended || writeSuspended)
        && lastUpdated == (if old(cfg) != null then old(lastUpdated) else currentTick)
    {
      if c == null {
        cfg := null;
        readSuspended, writeSuspended, timerPending := false, false, false;
        return;
      }
      if cfg == c { return; }
      var reinit := cfg != null;
      cfg := c;
      InitBucket(c, currentTick, reinit);
      timerPending := false;
      readSuspended := readLimit <= 0;
      writeSuspended := writeLimit <= 0;
      if readSuspended || writeSuspended { timerPending := true; }
    }
  }

  function Least(a: int, b: int): int {
    if a > b then b else a
  }

  /** What is held comes free: once the ticks that passed are worth more than the debt, a refill lifts the
      limit above zero. */
  lemma DebtIsPaid(limit: Limit, r: Rate, ticks: nat)
    requires RateOk(r) && limit <= 0 && 0 < ticks
    ensures Refilled(limit, r, ticks) > 0 <==> limit + Allowance(r, ticks) > 0
  {
    hide Refilled;
    RefilledIsClipped(limit, r, ticks);
    Commutes(ticks, r.rate);
  }
}
