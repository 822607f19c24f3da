/** The polling timer of Timer.hpp.  Ticks are those of the system clock, `k` of them to a
    microsecond; the count and the interval are in microseconds and 32 bits wide. */
module Timer {
  import opened Arith

  const INT_MAX: int := 0x7fff_ffff
  const INT_RANGE: int := 0x1_0000_0000

  /** Conversion to a 32-bit int. */
  function Int32(x: int): (y: int)
    ensures -INT_MAX - 1 <= y <= INT_MAX
    ensures (x - y) % INT_RANGE == 0
    ensures y == x <==> -INT_MAX - 1 <= x <= INT_MAX
  {
    (x + INT_MAX + 1) % INT_RANGE - INT_MAX - 1
  }

  /** The microseconds counted between two polls: whole ones, and none if the clock went back. */
  function Gap(k: nat, earlier: int, later: int): nat
    requires k > 0
  {
    if later > earlier then (later - earlier) / k else 0
  }

  datatype Counter = Counter(interval: int, count: int, oldTick: int)

  /** One poll: does the timer fire, and what is counted afterwards. */
  function Poll(k: nat, c: Counter, now: int): (bool, Counter)
    requires k > 0
  {
    var count := if now > c.oldTick then Int32(c.count + Gap(k, c.oldTick, now)) else c.count;
    if count > c.interval then (true, Counter(c.interval, Int32(count - c.interval), now))
    else (false, Counter(c.interval, count, now))
  }

  /** How often the timer fires over a list of polls, and the counter at the end. */
  function Polls(k: nat, c: Counter, ticks: seq<int>): (nat, Counter)
    requires k > 0
    decreases |ticks|
  {
    if ticks == [] then (0, c)
    else
      var (fired, c1) := Poll(k, c, ticks[0]);
      var (fires, c2) := Polls(k, c1, ticks[1..]);
      ((if fired then 1 else 0) + fires, c2)
  }

  /** The sum of the microseconds counted at the polls. */
  function Elapsed(k: nat, oldTick: int, ticks: seq<int>): nat
    requires k > 0
    decreases |ticks|
  {
    if ticks == [] then 0 else Gap(k, oldTick, ticks[0]) + Elapsed(k, ticks[0], ticks[1..])
  }

  // ---- no drift in the count ----

  /** No 32-bit overflow at any poll. */
  predicate InRange(k: nat, c: Counter, ticks: seq<int>)
    requires k > 0
    decreases |ticks|
  {
    ticks == [] || (c.count + Gap(k, c.oldTick, ticks[0]) <= INT_MAX &&
                    InRange(k, Poll(k, c, ticks[0]).1, ticks[1..]))
  }

  /** One poll adds up exactly if it does not overflow, and otherwise loses time. */
  lemma PollExact(k: nat, c: Counter, now: int)
    requires k > 0 && 0 <= c.interval <= INT_MAX && -INT_MAX - 1 <= c.count <= INT_MAX
    ensures var (fired, d) := Poll(k, c, now);
            && ((if fired then c.interval else 0) + d.count == c.count + Gap(k, c.oldTick, now)
                <==> c.count + Gap(k, c.oldTick, now) <= INT_MAX)
            && (if fired then c.interval else 0) + d.count <= c.count + Gap(k, c.oldTick, now)
            && -INT_MAX - 1 <= d.count <= INT_MAX
  {
  }

  /** Fires times interval, plus what is counted, is the time elapsed since the start exactly if the
      count never overflows: an overflow only ever loses time. */
  lemma {:induction false} Conservation(k: nat, c: Counter, ticks: seq<int>)
    requires k > 0 && 0 <= c.interval <= INT_MAX && -INT_MAX - 1 <= c.count <= INT_MAX
    ensures var (fires, d) := Polls(k, c, ticks);
            && (fires * c.interval + d.count == c.count + Elapsed(k, c.oldTick, ticks) <==> InRange(k, c, ticks))
            && fires * c.interval + d.count <= c.count + Elapsed(k, c.oldTick, ticks)
            && -INT_MAX - 1 <= d.count <= INT_MAX
    decreases |ticks|
  {
    if ticks != [] {
      PollExact(k, c, ticks[0]);
      var (fired, c1) := Poll(k, c, ticks[0]);
      Conservation(k, c1, ticks[1..]);
      var (fires, d) := Polls(k, c1, ticks[1..]);
      assert (1 + fires) * c.interval == c.interval + fires * c.interval;
    }
  }

  /** With overflow, it is still so modulo 2^32. */
  lemma {:induction false} ConservationModulo(k: nat, c: Counter, ticks: seq<int>)
    requires k > 0
    ensures var (fires, d) := Polls(k, c, ticks);
            (fires * c.interval + d.count - c.count - Elapsed(k, c.oldTick, ticks)) % INT_RANGE == 0
    decreases |ticks|
  {
    if ticks != [] {
      var (fired, c1) := Poll(k, c, ticks[0]);
      ConservationModulo(k, c1, ticks[1..]);
      var (fires, d) := Polls(k, c1, ticks[1..]);
      var e := Elapsed(k, ticks[0], ticks[1..]);
      var x := fires * c.interval + d.count - c1.count - e;
      var y := (if fired then c.interval else 0) + c1.count - c.count - Gap(k, c.oldTick, ticks[0]);
      PollModulo(k, c, ticks[0]);
      AddMultiples(x, y);
      assert (1 + fires) * c.interval == c.interval + fires * c.interval;
    }
  }

  lemma PollModulo(k: nat, c: Counter, now: int)
    requires k > 0
    ensures var (fired, d) := Poll(k, c, now);
            ((if fired then c.interval else 0) + d.count - c.count - Gap(k, c.oldTick, now)) % INT_RANGE == 0
  {
  }

  lemma AddMultiples(x: int, y: int)
    requires x % INT_RANGE == 0 && y % INT_RANGE == 0
    ensures (x + y) % INT_RANGE == 0
  {
  }

  // ---- never early, and how often ----

  /** While each poll comes within an interval of the one before, the count stays within the
      interval. */
  lemma {:induction false} CountStaysLow(k: nat, c: Counter, ticks: seq<int>)
    requires k > 0 && 0 < c.interval <= INT_MAX && 0 <= c.count <= c.interval
    requires GapsWithin(k, c.oldTick, ticks, c.interval) && InRange(k, c, ticks)
    ensures var d := Polls(k, c, ticks).1;
            0 <= d.count <= c.interval && (d.count > 0 <==> c.count > 0 || Elapsed(k, c.oldTick, ticks) > 0)
    decreases |ticks|
  {
    if ticks != [] {
      CountStaysLow(k, Poll(k, c, ticks[0]).1, ticks[1..]);
    }
  }

  /** An interval of at most half the range leaves no room for an overflow. */
  lemma {:induction false} ShortIntervalInRange(k: nat, c: Counter, ticks: seq<int>)
    requires k > 0 && 0 < c.interval && 2 * c.interval <= INT_MAX && 0 <= c.count <= c.interval
    requires GapsWithin(k, c.oldTick, ticks, c.interval)
    ensures InRange(k, c, ticks)
    decreases |ticks|
  {
    if ticks != [] {
      ShortIntervalInRange(k, Poll(k, c, ticks[0]).1, ticks[1..]);
    }
  }

  /** What an overflow loses is at least the whole range of the count. */
  lemma OverflowLoss(k: nat, c: Counter, ticks: seq<int>)
    requires k > 0 && 0 <= c.interval <= INT_MAX && -INT_MAX - 1 <= c.count <= INT_MAX && !InRange(k, c, ticks)
    ensures var (fires, d) := Polls(k, c, ticks);
            fires * c.interval + d.count + INT_RANGE <= c.count + Elapsed(k, c.oldTick, ticks)
  {
    Conservation(k, c, ticks);
    ConservationModulo(k, c, ticks);
    var (fires, d) := Polls(k, c, ticks);
    BelowByRange(fires * c.interval + d.count - c.count - Elapsed(k, c.oldTick, ticks));
  }

  lemma BelowByRange(x: int)
    requires x < 0 && x % INT_RANGE == 0
    ensures x <= -INT_RANGE
  {
  }

  predicate GapsWithin(k: nat, oldTick: int, ticks: seq<int>, interval: int)
    requires k > 0
    decreases |ticks|
  {
    ticks == [] || (Gap(k, oldTick, ticks[0]) <= interval && GapsWithin(k, ticks[0], ticks[1..], interval))
  }

  /** A timer with any interval that is polled often enough has fired exactly `(T - 1) / interval`
      times when `T > 0` microseconds have been counted, if and only if its count never overflowed. */
  lemma FiresExactly(k: nat, interval: int, start: int, ticks: seq<int>)
    requires k > 0 && 0 < interval <= INT_MAX
    requires GapsWithin(k, start, ticks, interval)
    ensures var t := Elapsed(k, start, ticks);
            Polls(k, Counter(interval, 0, start), ticks).0 == (if t == 0 then 0 else (t - 1) / interval)
            <==> InRange(k, Counter(interval, 0, start), ticks)
  {
    var c := Counter(interval, 0, start);
    var (fires, d) := Polls(k, c, ticks);
    Conservation(k, c, ticks);
    if InRange(k, c, ticks) {
      CountStaysLow(k, c, ticks);
      if d.count > 0 {
        DivMod(fires, d.count - 1, interval);
      } else if fires > 0 {
        MulMono(1, fires, interval);
      }
    } else {
      OverflowLoss(k, c, ticks);
      QuotientAbove(Elapsed(k, start, ticks) - 1, fires, interval);
    }
  }

  lemma QuotientAbove(t: nat, q: nat, d: nat)
    requires d > 0 && q * d + d <= t
    ensures t / d > q
  {
    if t / d <= q {
      MulMono(t / d, q, d);
    }
  }

  /** Intervals of up to 17 minutes are always kept. */
  lemma FiresExactlyIfShort(k: nat, interval: int, start: int, ticks: seq<int>)
    requires k > 0 && 0 < interval && 2 * interval <= INT_MAX && GapsWithin(k, start, ticks, interval)
    ensures var t := Elapsed(k, start, ticks);
            Polls(k, Counter(interval, 0, start), ticks).0 == if t == 0 then 0 else (t - 1) / interval
  {
    ShortIntervalInRange(k, Counter(interval, 0, start), ticks);
    FiresExactly(k, interval, start, ticks);
  }

  /** An interval beyond half the range of an int: two polls, each exactly one interval after the one
      before, overflow the count, and the fire that is due is missed. */
  lemma LongIntervalMisses(k: nat, interval: int, start: int) returns (ticks: seq<int>)
    requires k > 0 && interval <= INT_MAX < 2 * interval
    ensures GapsWithin(k, start, ticks, interval) && !InRange(k, Counter(interval, 0, start), ticks)
    ensures Elapsed(k, start, ticks) == 2 * interval
    ensures Polls(k, Counter(interval, 0, start), ticks).0 == 0
  {
    var first, second := start + interval * k, start + interval * k + interval * k;
    GapOf(k, start, interval);
    GapOf(k, first, interval);
    var last: seq<int> := [second];
    var c := Counter(interval, interval, first);
    assert Poll(k, Counter(interval, 0, start), first) == (false, c);
    LastPollMisses(k, c, second);
    ticks := [first] + last;
    assert ticks[1..] == last;
  }

  lemma LastPollMisses(k: nat, c: Counter, now: int)
    requires k > 0 && 0 <= c.count == c.interval == Gap(k, c.oldTick, now) <= INT_MAX < 2 * c.interval
    ensures !InRange(k, c, [now]) && Polls(k, c, [now]).0 == 0 && Elapsed(k, c.oldTick, [now]) == c.interval
  {
    var ticks := [now];
    assert ticks[0] == now && ticks[1..] == [];
    assert !Poll(k, c, now).0;
  }

  lemma GapOf(k: nat, earlier: int, gap: int)
    requires k > 0 && gap > 0
    ensures earlier + gap * k > earlier && Gap(k, earlier, earlier + gap * k) == gap
  {
    DivMod(gap, 0, k);
    MulMono(1, gap, k);
    GapIs(k, earlier, gap * k);
  }

  lemma GapIs(k: nat, earlier: int, d: nat)
    requires k > 0 && d > 0
    ensures Gap(k, earlier, earlier + d) == d / k
  {
  }

  /** The interval given to start alone decides: the timer fires as often as it should, however it is
      polled within every interval, if and only if twice the interval is still an int. */
  lemma FiresExactlyIffShort(k: nat, interval: int, start: int)
    requires k > 0 && 0 < interval <= INT_MAX
    ensures (forall ticks: seq<int> :: GapsWithin(k, start, ticks, interval) ==>
               var t := Elapsed(k, start, ticks);
               Polls(k, Counter(interval, 0, start), ticks).0 == if t == 0 then 0 else (t - 1) / interval)
            <==> 2 * interval <= INT_MAX
  {
    if 2 * interval <= INT_MAX {
      forall ticks: seq<int> | GapsWithin(k, start, ticks, interval)
        ensures var t := Elapsed(k, start, ticks);
                Polls(k, Counter(interval, 0, start), ticks).0 == if t == 0 then 0 else (t - 1) / interval
      {
        FiresExactlyIfShort(k, interval, start, ticks);
      }
    } else {
      var ticks := LongIntervalMisses(k, interval, start);
      FiresExactly(k, interval, start, ticks);
    }
  }

  // ---- when it fires ----

  /** A poll whose count does not overflow fires exactly if more than an interval has been counted, and
      then takes off one interval, however much is left. */
  lemma PollFires(k: nat, c: Counter, now: int)
    requires k > 0 && 0 <= c.interval <= INT_MAX && -INT_MAX - 1 <= c.count
    requires c.count + Gap(k, c.oldTick, now) <= INT_MAX
    ensures var (fired, d) := Poll(k, c, now);
            var total := c.count + Gap(k, c.oldTick, now);
            && (fired <==> total > c.interval)
            && d == Counter(c.interval, if fired then total - c.interval else total, now)
  {
  }

  lemma {:induction false} PollsMore(k: nat, c: Counter, ticks: seq<int>, now: int)
    requires k > 0
    ensures var (fires, d) := Polls(k, c, ticks);
            var (fired, e) := Poll(k, d, now);
            && Polls(k, c, ticks + [now]) == (fires + if fired then 1 else 0, e)
            && (InRange(k, c, ticks + [now]) <==> InRange(k, c, ticks) && d.count + Gap(k, d.oldTick, now) <= INT_MAX)
            && Elapsed(k, c.oldTick, ticks + [now]) == Elapsed(k, c.oldTick, ticks) + Gap(k, d.oldTick, now)
            && d.interval == c.interval
    decreases |ticks|
  {
    if ticks == [] {
      assert [] + [now] == [now] && [now][1..] == [];
    } else {
      PollsMore(k, Poll(k, c, ticks[0]).1, ticks[1..], now);
      assert (ticks + [now])[1..] == ticks[1..] + [now];
    }
  }

  /** On every list of polls, however late: after `fires` fires, the next poll fires exactly if the time
      counted up to it is more than `fires + 1` intervals. */
  lemma FiresWhenDue(k: nat, interval: int, start: int, ticks: seq<int>, now: int)
    requires k > 0 && 0 <= interval <= INT_MAX
    requires InRange(k, Counter(interval, 0, start), ticks + [now])
    ensures var c := Counter(interval, 0, start);
            var fires, t := Polls(k, c, ticks).0, Elapsed(k, start, ticks + [now]);
            Polls(k, c, ticks + [now]).0 == fires + if t > (fires + 1) * interval then 1 else 0
  {
    var c := Counter(interval, 0, start);
    PollsMore(k, c, ticks, now);
    Conservation(k, c, ticks);
    var (fires, d) := Polls(k, c, ticks);
    PollFires(k, d, now);
    OneMore(fires, interval, d.count + Gap(k, d.oldTick, now), Elapsed(k, start, ticks + [now]));
  }

  lemma OneMore(fires: nat, interval: int, total: int, t: int)
    requires fires * interval + total == t
    ensures total > interval <==> t > (fires + 1) * interval
  {
    assert (fires + 1) * interval == fires * interval + interval;
  }

  lemma {:induction false} FiringLeavesCount(k: nat, c: Counter, ticks: seq<int>)
    requires k > 0 && 0 < c.interval <= INT_MAX && 0 <= c.count <= INT_MAX && InRange(k, c, ticks)
    ensures var (fires, d) := Polls(k, c, ticks);
            d.count >= 0 && (fires > 0 || c.count > 0 ==> d.count > 0)
    decreases |ticks|
  {
    if ticks != [] {
      FiringLeavesCount(k, Poll(k, c, ticks[0]).1, ticks[1..]);
    }
  }

  /** However late the polls come, and even if the count overflows, the timer never fires early: the
      n-th time only when more than n intervals have been counted. */
  lemma NeverEarly(k: nat, interval: int, start: int, ticks: seq<int>)
    requires k > 0 && 0 < interval <= INT_MAX
    ensures var fires := Polls(k, Counter(interval, 0, start), ticks).0;
            fires > 0 ==> fires * interval < Elapsed(k, start, ticks)
  {
    var c := Counter(interval, 0, start);
    Conservation(k, c, ticks);
    if InRange(k, c, ticks) {
      FiringLeavesCount(k, c, ticks);
    } else {
      OverflowLoss(k, c, ticks);
    }
  }

  // ---- drift against the clock ----

  /** The clock ticks in the positive gaps, nothing rounded. */
  function ClockTicks(oldTick: int, ticks: seq<int>): nat
    decreases |ticks|
  {
    if ticks == [] then 0
    else (if ticks[0] > oldTick then ticks[0] - oldTick else 0) + ClockTicks(ticks[0], ticks[1..])
  }

  predicate WholeMicroseconds(k: nat, oldTick: int, ticks: seq<int>)
    requires k > 0
    decreases |ticks|
  {
    ticks == [] || ((ticks[0] > oldTick ==> (ticks[0] - oldTick) % k == 0)
                    && WholeMicroseconds(k, ticks[0], ticks[1..]))
  }

  /** Every poll loses the part of a microsecond it cuts off, so the timer can only run late: by less
      than a microsecond per poll, and not at all exactly if every gap is a whole number of them. */
  lemma {:induction false} Drift(k: nat, oldTick: int, ticks: seq<int>)
    requires k > 0
    ensures k * Elapsed(k, oldTick, ticks) <= ClockTicks(oldTick, ticks)
    ensures ClockTicks(oldTick, ticks) <= k * Elapsed(k, oldTick, ticks) + (k - 1) * |ticks|
    ensures ClockTicks(oldTick, ticks) == k * Elapsed(k, oldTick, ticks) <==> WholeMicroseconds(k, oldTick, ticks)
    decreases |ticks|
  {
    if ticks != [] {
      Drift(k, ticks[0], ticks[1..]);
      var gap := if ticks[0] > oldTick then ticks[0] - oldTick else 0;
      assert Gap(k, oldTick, ticks[0]) == gap / k;
      AddGap(k, gap, Elapsed(k, ticks[0], ticks[1..]), ClockTicks(ticks[0], ticks[1..]), |ticks[1..]|);
    }
  }

  /** No list of polls makes the timer late exactly if the clock ticks in microseconds. */
  lemma NoDriftIffMicroseconds(k: nat, oldTick: int)
    requires k > 0
    ensures (forall ticks: seq<int> :: ClockTicks(oldTick, ticks) == k * Elapsed(k, oldTick, ticks)) <==> k == 1
  {
    if k == 1 {
      forall ticks: seq<int> ensures ClockTicks(oldTick, ticks) == k * Elapsed(k, oldTick, ticks) {
        Drift(k, oldTick, ticks);
      }
    } else {
      var ticks := [oldTick + 1];
      assert ticks[1..] == [] && ClockTicks(oldTick, ticks) == 1;
      assert Gap(k, oldTick, oldTick + 1) == 0 && Elapsed(k, oldTick, ticks) == 0;
      assert ClockTicks(oldTick, ticks) != k * Elapsed(k, oldTick, ticks);
    }
  }

  lemma AddGap(k: nat, gap: nat, elapsed: nat, clock: nat, polls: nat)
    requires k > 0 && k * elapsed <= clock <= k * elapsed + (k - 1) * polls
    ensures k * (gap / k + elapsed) <= gap + clock <= k * (gap / k + elapsed) + (k - 1) * (polls + 1)
    ensures gap + clock == k * (gap / k + elapsed) <==> gap % k == 0 && clock == k * elapsed
  {
  }

  // ---- the code ----

  class Timer {
    const ticksPerMicrosecond: nat
    var interval: int
    var count: int
    var oldTick: int
    var started: bool

    function State(): Counter
      reads this
    {
      Counter(interval, count, oldTick)
    }

    constructor (ticksPerMicrosecond: nat, now: int)
      ensures State() == Counter(0, 0, now) && !started
    {
      this.ticksPerMicrosecond := ticksPerMicrosecond;
      interval, count, oldTick, started := 0, 0, now, false;
    }

    method Start(newInterval: int, now: int)
      modifies this
      ensures State() == Counter(newInterval, 0, now) && started
    {
      interval := newInterval;
      count := 0;
      oldTick := now;
      started := true;
    }

    method Stop()
      modifies this`started
      ensures !started
    {
      started := false;
    }

    /** The repeat handler; `now` is what the clock says. */
    method OnRepeat(now: int) returns (fired: bool)
      requires ticksPerMicrosecond > 0
      modifies this`count, this`oldTick
      ensures (fired, State()) == Poll(ticksPerMicrosecond, old(State()), now)
      ensures oldTick == now && interval == old(interval)
      ensures var total := old(count) + if now > old(oldTick) then (now - old(oldTick)) / ticksPerMicrosecond else 0;
              -INT_MAX - 1 <= old(count) && 0 <= interval && total <= INT_MAX ==>
                && (fired <==> total > interval)
                && count == if fired then total - interval else total
    {
      if now > oldTick {
        var delta := (now - oldTick) / ticksPerMicrosecond;
        count := Int32(count + delta);
      }
      oldTick := now;
      fired := false;
      if count > interval {
        fired := true;
        count := Int32(count - interval);
      }
    }
  }
}
