/**
 The time wheel (internal/asynctimer/asynctimer.go): timers hang in slots, a tick turns to the next slot, and a
 timer there is due when it has no full circles left. Durations are whole numbers of nanoseconds; slots are computed
 from their milliseconds, rounded down.
 */
module TimeWheel {
  // ---- arithmetic ----

  /** Ticks from slot curr to slot i of a wheel of n slots, between 1 and n. */
  function Distance(curr: nat, i: nat, n: nat): (d: nat)
    requires curr < n && i < n
    ensures 1 <= d <= n
  {
    if i > curr then i - curr else i + n - curr
  }

  /** Ticks until a timer in slot i with this many circles left is due. */
  ghost function Left(curr: nat, i: nat, circle: nat, n: nat): (d: nat)
    requires curr < n && i < n
    ensures d >= 1
  {
    assert circle * n >= 0;
    Distance(curr, i, n) + circle * n
  }

  /** Duration.Round: to the nearest multiple of a positive interval, halves away from zero. */
  function Round(delay: nat, interval: nat): (r: nat)
    requires interval > 0
  {
    var rest := delay % interval;
    if rest + rest < interval then delay - rest else delay + interval - rest
  }

  /** The number of intervals nearest to a delay. */
  function Intervals(delay: nat, interval: nat): nat
    requires interval > 0
  {
    Round(delay, interval) / interval
  }

  lemma MulAtLeast(k: int, n: nat)
    requires k >= 1
    ensures k * n >= n
  {}

  lemma DivMul(q: nat, n: nat, r: nat)
    requires r < n
    ensures (q * n + r) / n == q && (q * n + r) % n == r
  {
    var x := q * n + r;
    var q', r' := x / n, x % n;
    assert (q - q') * n == r' - r by { assert x == q' * n + r'; }
    if q > q' { MulAtLeast(q - q', n); }
    if q < q' {
      assert (q' - q) * n == r - r';
      MulAtLeast(q' - q, n);
    }
  }

  lemma RoundExact(delay: nat, interval: nat)
    requires interval > 0
    ensures Round(delay, interval) == Intervals(delay, interval) * interval
    ensures 2 * delay < 2 * Round(delay, interval) + interval && 2 * Round(delay, interval) <= 2 * delay + interval
    ensures delay >= interval ==> Intervals(delay, interval) >= 1
  {
    var q, r := delay / interval, delay % interval;
    assert delay == q * interval + r;
    var k := if r + r < interval then q else q + 1;
    assert Round(delay, interval) == k * interval by { assert (q + 1) * interval == q * interval + interval; }
    DivMul(k, interval, 0);
    if delay >= interval { OneLess(delay, interval); }
  }

  const MILLISECOND := 1_000_000

  /** Duration.Milliseconds. */
  function Millis(d: nat): nat {
    d / MILLISECOND
  }

  lemma MillisOrder(a: nat, b: nat)
    requires a <= b
    ensures Millis(a) <= Millis(b)
  {}

  /** With an interval of whole milliseconds, counting in milliseconds counts the intervals of any delay. */
  lemma MillisExact(delay: nat, interval: nat)
    requires interval > 0 && interval % MILLISECOND == 0
    ensures Millis(interval) > 0 && Millis(delay) / Millis(interval) == delay / interval
  {
    var m, y := Millis(interval), Millis(delay);
    var q, s, r := y / m, y % m, delay % MILLISECOND;
    var qm := q * m;
    assert y == qm + s;
    assert q * (m * MILLISECOND) == qm * MILLISECOND;
    DivMul(q, interval, s * MILLISECOND + r);
  }

  /** How many intervals the wheel counts in a delay of d of them. */
  function Counted(d: nat, interval: nat): nat
    requires Millis(interval) > 0
  {
    Millis(d * interval) / Millis(interval)
  }

  lemma WholeCounted(d: nat, interval: nat)
    requires interval > 0 && interval % MILLISECOND == 0
    ensures Millis(interval) > 0 && Counted(d, interval) == d
  {
    MillisExact(d * interval, interval);
    DivMul(d, interval, 0);
  }

  /** A rest of r nanoseconds adds up, over as many intervals as a whole interval has nanoseconds, to r intervals. */
  lemma Miscounted(interval: nat)
    requires interval >= MILLISECOND && interval % MILLISECOND != 0
    ensures var m := Millis(interval); m > 0 && Counted(m * MILLISECOND, interval) > m * MILLISECOND
  {
    var m, r := Millis(interval), interval % MILLISECOND;
    var d := m * MILLISECOND;
    assert d * interval == (m * interval) * MILLISECOND;
    assert Millis(d * interval) == m * interval;
    DivMul(interval, m, 0);
    assert Counted(d, interval) == interval == d + r;
  }

  /** Every number of intervals is counted right if and only if the interval is a whole number of milliseconds. */
  lemma MillisExactIff(interval: nat)
    requires interval >= MILLISECOND
    ensures Millis(interval) > 0
    ensures (forall d: nat :: Counted(d, interval) == d) <==> interval % MILLISECOND == 0
  {
    hide Counted;
    if interval % MILLISECOND == 0 {
      forall d: nat ensures Counted(d, interval) == d {
        WholeCounted(d, interval);
      }
    } else {
      Miscounted(interval);
    }
  }

  /** Integer division as in Go, towards zero. */
  function Quotient(a: int, b: nat): int
    requires b > 0
  {
    if a >= 0 then a / b else -(-a / b)
  }

  /** The ticks until a timer with this delay is due; less than an interval is a full turn of the wheel. */
  function TicksFor(delay: nat, interval: nat, slots: nat): nat
    requires interval > 0
  {
    if delay < interval then slots else delay / interval
  }

  /** A delay below the interval has no whole interval in milliseconds either, and no full circle. */
  lemma ShortDelay(delay: nat, interval: nat, n: nat)
    requires interval > 0 && interval % MILLISECOND == 0 && delay < interval && n > 0
    requires Millis(delay) > 0 || n > 1
    ensures Millis(interval) > 0 && Millis(delay) / Millis(interval) == 0
    ensures Quotient(Quotient(Millis(delay) - Millis(interval), Millis(interval)), n) == 0
  {
    MillisExact(delay, interval);
    DivMul(0, interval, delay);
    var d, unit := Millis(delay), Millis(interval);
    assert d < unit by {
      if d >= unit { OneLess(d, unit); }
    }
    if d == 0 {
      DivMul(1, unit, 0);
      DivMul(0, n, 1);
    } else {
      DivMul(0, unit, unit - d);
      DivMul(0, n, 0);
    }
  }

  lemma SlotAhead(curr: nat, q: nat, r: nat, n: nat)
    requires curr < n && r < n
    ensures (curr + (q * n + r + 1)) % n == if curr + 1 + r < n then curr + 1 + r else curr + 1 + r - n
  {
    if curr + 1 + r < n {
      DivMul(q, n, curr + 1 + r);
    } else {
      assert (q + 1) * n == q * n + n;
      DivMul(q + 1, n, curr + 1 + r - n);
    }
  }

  /** The slot and circle count for a delay of d intervals put the timer exactly d ticks away. */
  lemma Placement(curr: nat, d: nat, n: nat)
    requires curr < n && d >= 1
    ensures (curr + d) % n < n && Left(curr, (curr + d) % n, (d - 1) / n, n) == d
  {
    var q, r := (d - 1) / n, (d - 1) % n;
    assert d == q * n + r + 1;
    SlotAhead(curr, q, r, n);
  }

  lemma FullTurn(curr: nat, n: nat)
    requires curr < n
    ensures Left(curr, curr, 0, n) == n
  {
    assert 0 * n == 0;
  }

  lemma ShortPlaces(curr: nat, delay: nat, interval: nat, n: nat)
    requires curr < n && interval > 0 && interval % MILLISECOND == 0 && (Millis(delay) > 0 || n > 1) && delay < interval
    ensures Millis(interval) > 0
    ensures var d: int, unit := Millis(delay), Millis(interval);
      (curr + d / unit) % n == curr && Quotient(Quotient(d - unit, unit), n) == 0
  {
    ShortDelay(delay, interval, n);
    DivMul(0, n, curr);
  }

  lemma LongPlaces(delay: nat, interval: nat, n: nat)
    requires interval > 0 && interval % MILLISECOND == 0 && n > 0 && delay >= interval
    ensures Millis(interval) > 0
    ensures var d: int, unit := Millis(delay), Millis(interval);
      d / unit == delay / interval >= 1 && Quotient(Quotient(d - unit, unit), n) == (delay / interval - 1) / n
  {
    MillisExact(delay, interval);
    MillisOrder(interval, delay);
    OneLess(Millis(delay), Millis(interval));
    OneLess(delay, interval);
  }

  /** The slot and circle that are computed for a delay are as many ticks away as it asks for. */
  lemma Places(curr: nat, delay: nat, interval: nat, n: nat)
    requires curr < n && interval > 0 && interval % MILLISECOND == 0 && (Millis(delay) > 0 || n > 1)
    ensures Millis(interval) > 0
    ensures var d: int, unit := Millis(delay), Millis(interval);
      var index, circle := (curr + d / unit) % n, Quotient(Quotient(d - unit, unit), n);
      0 <= index < n && circle >= 0 && Left(curr, index, circle, n) == TicksFor(delay, interval, n)
  {
    hide Left, Quotient, Millis;
    MillisExact(delay, interval);
    var d: int, unit := Millis(delay), Millis(interval);
    var index, circle := (curr + d / unit) % n, Quotient(Quotient(d - unit, unit), n);
    if delay < interval {
      ShortPlaces(curr, delay, interval, n);
      FullTurn(curr, n);
    } else {
      LongPlaces(delay, interval, n);
      Placement(curr, delay / interval, n);
      assert index == (curr + delay / interval) % n && circle == (delay / interval - 1) / n;
    }
  }

  lemma OneLess(delay: nat, interval: nat)
    requires 0 < interval <= delay
    ensures delay / interval >= 1 && (delay - interval) / interval == delay / interval - 1
  {
    var q, r := delay / interval, delay % interval;
    assert delay == q * interval + r;
    assert q >= 1;
    assert (q - 1) * interval == q * interval - interval;
    DivMul(q - 1, interval, r);
  }

  /** A tick takes one off what a timer has left, by distance or, at its slot, by circle. */
  lemma TickLeft(curr: nat, i: nat, circle: nat, n: nat)
    requires curr < n && i < n
    ensures (curr + 1) % n < n
    ensures i != (curr + 1) % n ==>
      Left(curr, i, circle, n) > 1 && Left((curr + 1) % n, i, circle, n) == Left(curr, i, circle, n) - 1
    ensures i == (curr + 1) % n && circle > 0 ==>
      Left(curr, i, circle, n) > 1 && Left((curr + 1) % n, i, circle - 1, n) == Left(curr, i, circle, n) - 1
    ensures i == (curr + 1) % n && circle == 0 ==> Left(curr, i, circle, n) == 1
  {
    Turn(curr, i, n);
    assert (circle - 1) * n == circle * n - n;
    if circle > 0 { MulAtLeast(circle, n); }
  }

  /** Turning the wheel brings every slot one tick nearer, and the one it reaches a full circle away. */
  lemma Turn(curr: nat, i: nat, n: nat)
    requires curr < n && i < n
    ensures (curr + 1) % n < n
    ensures Distance((curr + 1) % n, i, n) == if Distance(curr, i, n) == 1 then n else Distance(curr, i, n) - 1
    ensures Distance(curr, i, n) == 1 <==> i == (curr + 1) % n
  {
    assert (curr + 1) % n == (if curr + 1 < n then curr + 1 else 0) by {
      if curr + 1 < n { DivMul(0, n, curr + 1); } else { DivMul(1, n, 0); }
    }
  }

  // ---- pending timers ----

  /** One tick on the ticks that pending timers have left: the timers with one left are due. */
  ghost function Due<T>(p: map<T, nat>): set<T> {
    set t | t in p && p[t] <= 1
  }

  ghost function Ticked<T>(p: map<T, nat>): (q: map<T, nat>)
    ensures q.Keys == p.Keys - Due(p)
  {
    map t | t in p && p[t] > 1 :: p[t] - 1
  }

  /** What happens to a wheel between two looks at it. */
  datatype Event<T> = Tick | Add(timer: T, d: nat) | Del(timer: T)

  ghost function After<T>(p: map<T, nat>, e: Event<T>): map<T, nat> {
    match e
    case Tick => Ticked(p)
    case Add(t, d) => p[t := d]
    case Del(t) => p - {t}
  }

  ghost function Run<T>(p: map<T, nat>, es: seq<Event<T>>): map<T, nat>
    decreases |es|
  {
    if es == [] then p else Run(After(p, es[0]), es[1..])
  }

  function CountTicks<T>(es: seq<Event<T>>): nat {
    if es == [] then 0 else (if es[0].Tick? then 1 else 0) + CountTicks(es[1..])
  }

  /** The events are ticks, and adding and deleting of other timers. */
  ghost predicate Leaves<T>(es: seq<Event<T>>, t: T) {
    forall e | e in es :: e.Tick? || e.timer != t
  }

  /**
   However ticks are mixed with adding and deleting other timers, a timer placed d ticks away stays pending for d - 1
   ticks, is found due by the d-th, and by no later one.
   */
  lemma {:induction false} DueOnTime<T>(p: map<T, nat>, t: T, es: seq<Event<T>>)
    requires t in p && p[t] >= 1 && Leaves(es, t)
    ensures CountTicks(es) < p[t] ==> t in Run(p, es) && Run(p, es)[t] == p[t] - CountTicks(es)
    ensures t in Due(Run(p, es)) <==> CountTicks(es) == p[t] - 1
    ensures CountTicks(es) >= p[t] ==> t !in Run(p, es)
    decreases |es|
  {
    if es != [] {
      LeavesRest(es, t);
      if es[0].Tick? && p[t] == 1 {
        Absent(Ticked(p), t, es[1..]);
      } else {
        DueOnTime(After(p, es[0]), t, es[1..]);
      }
    }
  }

  lemma LeavesRest<T>(es: seq<Event<T>>, t: T)
    requires Leaves(es, t) && es != []
    ensures (es[0].Tick? || es[0].timer != t) && Leaves(es[1..], t)
  {
    assert es[0] in es && forall e | e in es[1..] :: e in es;
  }

  lemma {:induction false} Absent<T>(p: map<T, nat>, t: T, es: seq<Event<T>>)
    requires t !in p && Leaves(es, t)
    ensures t !in Run(p, es)
    decreases |es|
  {
    if es != [] {
      LeavesRest(es, t);
      Absent(After(p, es[0]), t, es[1..]);
    }
  }

  // ---- the wheel ----

  class Timer {
    var delay: nat
    var circle: nat
    constructor (delay: nat)
      ensures this.delay == delay && circle == 0
    {
      this.delay, circle := delay, 0;
    }
  }

  class Slot {
    /** The slot's place on its wheel. */
    ghost const index: nat
    var timers: set<Timer>
    constructor (ghost i: nat)
      ensures timers == {} && index == i
    {
      timers, index := {}, i;
    }
  }

  class Wheel {
    const interval: nat
    const slots: seq<Slot>
    var currSlot: nat
    var timerToSlot: map<Timer, Slot>

    /** Slots and timerToSlot agree. */
    ghost predicate Valid()
      reads this, slots
    {
      && interval > 0 && currSlot < |slots|
      && (forall i | 0 <= i < |slots| :: slots[i].index == i)
      && (forall t | t in timerToSlot :: timerToSlot[t] in slots && t in timerToSlot[t].timers)
      && (forall s, t | s in slots && t in s.timers :: t in timerToSlot && timerToSlot[t] == s)
    }

    /** The ticks a pending timer has left. */
    ghost function LeftOf(t: Timer): (d: nat)
      requires Valid() && t in timerToSlot
      reads this, slots, t
      ensures d >= 1
    {
      InWheel(timerToSlot[t]);
      Left(currSlot, timerToSlot[t].index, t.circle, |slots|)
    }

    lemma InWheel(s: Slot)
      requires Valid() && s in slots
      ensures s.index < |slots| && slots[s.index] == s
    {
      var i :| 0 <= i < |slots| && slots[i] == s;
    }

    /** The ticks all pending timers have left. */
    ghost function Pending(): (p: map<Timer, nat>)
      requires Valid()
      reads this, slots, timerToSlot.Keys
      ensures p.Keys == timerToSlot.Keys
    {
      map t | t in timerToSlot :: LeftOf(t)
    }

    constructor (interval: nat, slotNum: nat)
      requires interval > 0 && slotNum > 0
      ensures Valid() && Pending() == map[] && this.interval == interval && |slots| == slotNum && fresh(slots)
    {
      this.interval := interval;
      var ss: seq<Slot> := [];
      for i := 0 to slotNum
        invariant |ss| == i && fresh(ss)
        invariant forall j | 0 <= j < i :: ss[j].timers == {} && ss[j].index == j
      {
        var s := new Slot(i);
        ss := ss + [s];
      }
      slots, currSlot, timerToSlot := ss, 0, map[];
    }

    /** Takes a pending timer out of its slot. */
    method TakeOff(timer: Timer, s: Slot)
      requires Valid() && timer in timerToSlot && s == timerToSlot[timer]
      modifies this`timerToSlot, s
      ensures Valid() && timerToSlot == old(timerToSlot) - {timer} && s.timers == old(s.timers) - {timer}
    {
      s.timers := s.timers - {timer};
      timerToSlot := timerToSlot - {timer};
    }

    /** Takes a timer off the wheel, if it is there. */
    method Del(timer: Timer)
      requires Valid()
      modifies this`timerToSlot, slots
      ensures Valid() && timerToSlot == old(timerToSlot) - {timer} && Pending() == old(Pending()) - {timer}
    {
      hide Left, Pending;
      if timer in timerToSlot {
        TakeOff(timer, timerToSlot[timer]);
      }
      assert timerToSlot == old(timerToSlot) - {timer};
      hide Valid;
      PendingLess(timer);
    }

    twostate lemma PendingLess(new timer: Timer)
      requires old(Valid()) && Valid() && currSlot == old(currSlot) && timerToSlot == old(timerToSlot) - {timer}
      requires forall t | t in timerToSlot :: t.circle == old(t.circle)
      ensures Pending() == old(Pending()) - {timer}
    {
      hide Valid, Left;
    }

    /**
     Computed in milliseconds, of which the interval must have a whole number; on a wheel of one slot a delay below a
     millisecond would get a negative circle.
     */
    method CalIndexAndCircle(timer: Timer) returns (index: nat, circle: nat)
      requires Valid() && interval % MILLISECOND == 0 && (Millis(timer.delay) > 0 || |slots| > 1)
      ensures index < |slots|
      ensures Left(currSlot, index, circle, |slots|) == TicksFor(timer.delay, interval, |slots|)
    {
      hide Left, Quotient, TicksFor;
      MillisExact(timer.delay, interval);
      var delay: int, unit := Millis(timer.delay), Millis(interval);
      Places(currSlot, timer.delay, interval, |slots|);
      index := (currSlot + delay / unit) % |slots|;
      circle := Quotient(Quotient(delay - unit, unit), |slots|);
    }

    /** Hangs a timer that is not on the wheel into a slot. */
    method Hang(timer: Timer, i: nat)
      requires Valid() && timer !in timerToSlot && i < |slots|
      modifies this`timerToSlot, slots[i]
      ensures Valid() && timerToSlot == old(timerToSlot)[timer := slots[i]]
    {
      slots[i].timers := slots[i].timers + {timer};
      timerToSlot := timerToSlot[timer := slots[i]];
    }

    /** Puts a timer on the wheel, due after as many ticks as its delay has intervals, or after a full turn. */
    method AddTimerHandle(timer: Timer)
      requires Valid() && interval % MILLISECOND == 0 && (Millis(timer.delay) > 0 || |slots| > 1)
      modifies this`timerToSlot, slots, timer`circle
      ensures Valid() && Pending() == old(Pending())[timer := TicksFor(timer.delay, interval, |slots|)]
    {
      hide Left, Pending, Valid;
      Del(timer);
      var i, c := CalIndexAndCircle(timer);
      timer.circle := c;
      Hang(timer, i);
      assert timerToSlot == old(timerToSlot)[timer := slots[i]];
      PendingMore(timer, i);
    }

    twostate lemma PendingMore(new timer: Timer, new i: nat)
      requires old(Valid()) && Valid() && currSlot == old(currSlot)
      requires i < |slots| && timerToSlot == old(timerToSlot)[timer := slots[i]]
      requires forall t | t in timerToSlot && t != timer :: t.circle == old(t.circle)
      ensures Pending() == old(Pending())[timer := Left(currSlot, i, timer.circle, |slots|)]
    {
      hide Left;
      assert LeftOf(timer) == Left(currSlot, i, timer.circle, |slots|);
      hide Valid;
    }

    lemma Hangs(timer: Timer, s: Slot)
      requires Valid() && s in slots && timer in s.timers
      ensures timer in timerToSlot && timerToSlot[timer] == s
    {}

    lemma AllHang(s: Slot)
      requires Valid() && s in slots
      ensures forall t | t in timerToSlot :: timerToSlot[t] == s <==> t in s.timers
    {}

    method TickTimer(timer: Timer, s: Slot) returns (due: bool)
      requires Valid() && s in slots && timer in s.timers
      modifies this`timerToSlot, s, timer`circle
      ensures Valid() && due == (old(timer.circle) == 0)
      ensures timerToSlot == if due then old(timerToSlot) - {timer} else old(timerToSlot)
      ensures s.timers == if due then old(s.timers) - {timer} else old(s.timers)
      ensures !due ==> timer.circle == old(timer.circle) - 1
    {
      due := timer.circle == 0;
      if !due {
        timer.circle := timer.circle - 1;
      } else {
        TakeOff(timer, s);
      }
    }

    /** Looks at the timers of one slot: those without circles left are taken off, the others lose a circle. */
    method TickSlot(s: Slot) returns (fired: set<Timer>)
      requires Valid() && s in slots
      modifies this`timerToSlot, s, timerToSlot.Keys`circle
      ensures Valid() && timerToSlot == old(timerToSlot) - fired && fired <= old(timerToSlot).Keys
      ensures forall t | t in old(timerToSlot) :: t in fired <==> old(timerToSlot)[t] == s && old(t.circle) == 0
      ensures forall t | t in timerToSlot ::
        t.circle == if timerToSlot[t] == s then old(t.circle) - 1 else old(t.circle)
    {
      hide Valid;
      AllHang(s);
      fired := {};
      var todo := s.timers;
      while todo != {}
        invariant Valid() && timerToSlot == old(timerToSlot) - fired && todo <= s.timers
        invariant forall t | t in fired ::
          t in old(timerToSlot) && old(timerToSlot)[t] == s && old(t.circle) == 0 && t !in todo
        invariant forall t | t in timerToSlot ::
          t.circle == (if timerToSlot[t] == s && t !in todo then old(t.circle) - 1 else old(t.circle))
        decreases |todo|
      {
        var timer :| timer in todo;
        todo := todo - {timer};
        Hangs(timer, s);
        assert timer in old(timerToSlot) - fired;
        var due := TickTimer(timer, s);
        if due { fired := fired + {timer}; }
      }
    }

    /** The pending timers after a tick. */
    twostate lemma PendingTicked(new fired: set<Timer>)
      requires old(Valid()) && Valid() && currSlot == (old(currSlot) + 1) % |slots| &&
        timerToSlot == old(timerToSlot) - fired
      requires fired <= old(timerToSlot).Keys
      requires forall t | t in old(timerToSlot) ::
        t in fired <==> old(timerToSlot)[t] == slots[currSlot] && old(t.circle) == 0
      requires forall t | t in timerToSlot ::
        t.circle == if timerToSlot[t] == slots[currSlot] then old(t.circle) - 1 else old(t.circle)
      ensures fired == Due(old(Pending())) && Pending() == Ticked(old(Pending()))
    {
      hide Left;
      forall t | t in old(timerToSlot)
        ensures t in fired <==> old(Pending())[t] <= 1
        ensures t !in fired ==> Pending()[t] == old(Pending())[t] - 1
      {
        InWheel(old(timerToSlot)[t]);
        TickLeft(old(currSlot), old(timerToSlot)[t].index, old(t.circle), |slots|);
      }
      hide Valid;
    }

    /** One tick: the due timers leave the wheel, and every other pending timer has one tick less. */
    method TickHandle() returns (fired: set<Timer>)
      requires Valid()
      modifies this`currSlot, this`timerToSlot, slots, timerToSlot.Keys`circle
      ensures Valid() && fired == Due(old(Pending())) && Pending() == Ticked(old(Pending()))
    {
      hide Left, Pending, Due, Ticked;
      currSlot := (currSlot + 1) % |slots|;
      fired := TickSlot(slots[currSlot]);
      hide Valid;
      PendingTicked(fired);
    }
  }


  /** An event that the code can carry out on a wheel; a timer is added for the intervals in its delay. */
  ghost predicate Possible(w: Wheel, e: Event<Timer>)
    reads (if e.Add? then {e.timer} else {})`delay
  {
    && w.interval > 0
    && (e.Add? ==>
          e.d == TicksFor(e.timer.delay, w.interval, |w.slots|) && (Millis(e.timer.delay) > 0 || |w.slots| > 1))
  }

  ghost function TimersOf(es: seq<Event<Timer>>): set<Timer> {
    set e | e in es && e.Add? :: e.timer
  }

  lemma {:induction false} RunSnoc<T>(p: map<T, nat>, es: seq<Event<T>>, e: Event<T>)
    ensures Run(p, es + [e]) == After(Run(p, es), e)
    decreases |es|
  {
    if es == [] {
      assert [e][1..] == [];
    } else {
      assert (es + [e])[1..] == es[1..] + [e];
      RunSnoc(After(p, es[0]), es[1..], e);
    }
  }

  /** Carries out one event; a tick fires the timers that are due. */
  method Handle(w: Wheel, e: Event<Timer>) returns (fired: set<Timer>)
    requires w.Valid() && w.interval % MILLISECOND == 0 && Possible(w, e)
    modifies w`currSlot, w`timerToSlot, w.slots, w.timerToSlot.Keys`circle, (if e.Add? then {e.timer} else {})`circle
    ensures w.Valid() && w.Pending() == After(old(w.Pending()), e)
    ensures fired == if e.Tick? then Due(old(w.Pending())) else {}
    ensures w.timerToSlot.Keys <= old(w.timerToSlot.Keys) + (if e.Add? then {e.timer} else {})
  {
    hide Wheel.Valid, Wheel.Pending, Due, Ticked;
    fired := {};
    match e
    case Tick => fired := w.TickHandle();
    case Add(timer, _) => w.AddTimerHandle(timer);
    case Del(timer) => w.Del(timer);
    assert w.Pending().Keys == w.timerToSlot.Keys && old(w.Pending()).Keys == old(w.timerToSlot).Keys;
  }

  /**
   Carries out any list of events on a wheel: it has the effect of the list on the ticks that timers have left, and
   each tick fires exactly the timers that are due by then.
   */
  method CarryOut(w: Wheel, es: seq<Event<Timer>>) returns (fired: seq<set<Timer>>)
    requires w.Valid() && w.interval % MILLISECOND == 0 && forall e | e in es :: Possible(w, e)
    modifies w`currSlot, w`timerToSlot, w.slots, w.timerToSlot.Keys`circle, TimersOf(es)`circle
    ensures w.Valid() && w.Pending() == Run(old(w.Pending()), es) && |fired| == |es|
    ensures forall i | 0 <= i < |es| ::
      fired[i] == if es[i].Tick? then Due(Run(old(w.Pending()), es[..i])) else {}
  {
    hide Wheel.Valid, Wheel.Pending, Due, Ticked, After, Run, TicksFor, Millis, Possible;
    fired := [];
    assert es[..0] == [];
    RunNone(w.Pending());
    for k := 0 to |es|
      invariant w.Valid() && w.Pending() == Run(old(w.Pending()), es[..k]) && |fired| == k
      invariant w.timerToSlot.Keys <= old(w.timerToSlot.Keys) + TimersOf(es)
      invariant forall i | 0 <= i < k :: fired[i] == if es[i].Tick? then Due(Run(old(w.Pending()), es[..i])) else {}
    {
      assert es[..k + 1] == es[..k] + [es[k]] && es[k] in es;
      RunSnoc(old(w.Pending()), es[..k], es[k]);
      var f := Handle(w, es[k]);
      fired := fired + [f];
    }
    assert es[..|es|] == es;
  }

  lemma RunNone<T>(p: map<T, nat>)
    ensures Run(p, []) == p
  {}

  /** A new wheel, or none for an interval or a slot number that is not positive. */
  method NewTimeWheel(interval: int, slotNum: int) returns (w: Wheel?)
    ensures w == null <==> interval <= 0 || slotNum <= 0
    ensures w != null ==> w.Valid() && w.Pending() == map[] && w.interval == interval && |w.slots| == slotNum
  {
    if interval <= 0 || slotNum <= 0 { return null; }
    w := new Wheel(interval, slotNum);
  }

  /** An interval below a millisecond is accepted, though slots are computed by dividing by its milliseconds. */
  method ShortInterval(interval: int, slotNum: int) returns (w: Wheel?)
    requires 0 < interval < MILLISECOND && slotNum > 0
    ensures w != null && w.Valid() && Millis(w.interval) == 0
  {
    w := NewTimeWheel(interval, slotNum);
  }
}
