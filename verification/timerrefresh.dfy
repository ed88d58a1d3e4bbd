/**
 Refreshing one timer of the time wheel (internal/asynctimer/asynctimer.go). Adding an active timer only records a
 new begin; the tick that finds the timer due starts a check on its own goroutine, which expires the timer or adds
 it again. Adding is not atomic: it looks whether the timer is active, and only later stores a new begin or makes the
 timer active and queues it. Any number of callers and checks do so at once. `now` and `begin` count ticks; the
 timeout is any duration of at least one interval.
 */
module TimerRefresh {
  import opened TimeWheel

  datatype State = State(
    interval: nat, timeout: nat,     // durations
    slots: nat,                      // the slots of the wheel
    now: nat, begin: nat,
    active: bool,                    // isActive
    delay: nat,                      // the duration the timer is placed with next
    renewing: nat,                   // adds that have seen the timer active, and will store begin
    opening: nat, setting: nat,      // adds that have seen it inactive, before and after they set the flag
    queued: nat,                     // entries in timersToAdd
    placed: nat,                     // ticks left on the wheel, 0 when not on it
    deciding: nat,                   // checks that have not looked at the clock yet
    readding: nat, expiring: nat,    // checks that have, and will add again or expire
    expired: nat)                    // expirations so far

  /** Refresh and Readd are the look with which an add begins, of a caller and of a check. */
  datatype Step = Refresh | Readd | Renew | Activate | Enqueue | Place | Tick | Decide | Expire

  /** What the wheel and the timer are made with. */
  predicate Fits(s: State) {
    0 < s.interval <= s.timeout && s.slots > 0
  }

  predicate Whole(s: State)
    requires Fits(s)
  {
    s.timeout % s.interval == 0
  }

  /** The whole intervals in the timeout. */
  function Span(s: State): nat
    requires Fits(s)
  {
    s.timeout / s.interval
  }

  /** The intervals nearest to the timeout, for which a new round is placed. */
  function Rounded(s: State): nat
    requires Fits(s)
  {
    Intervals(s.timeout, s.interval)
  }

  /** Adds between their look and their last write. */
  function Adds(s: State): nat {
    s.renewing + s.opening + s.setting
  }

  /** Checks that have not expired the timer nor begun to add it. */
  function Pending(s: State): nat {
    s.deciding + s.readding
  }

  /** An add is refused: the timer is inactive and its delay shorter than an interval. */
  predicate Refused(s: State) {
    !s.active && s.delay < s.interval
  }

  function Look(s: State): State {
    if s.active then s.(renewing := s.renewing + 1) else s.(opening := s.opening + 1)
  }

  /** The time since begin. */
  function Elapsed(s: State): nat
    requires s.begin <= s.now
  {
    (s.now - s.begin) * s.interval
  }

  /** The ticks until a timer placed with the present delay is due. */
  function Hang(s: State): nat
    requires Fits(s)
  {
    TicksFor(s.delay, s.interval, s.slots)
  }

  predicate Enabled(s: State, a: Step) {
    match a
    case Refresh => true
    case Readd => s.readding > 0
    case Renew => s.renewing > 0
    case Activate => s.opening > 0
    case Enqueue => s.setting > 0
    case Place => s.queued > 0
    case Tick => true
    case Decide => s.deciding > 0 && s.begin <= s.now
    case Expire => s.expiring > 0
  }

  /** A refused caller gets an error, and a refused check runs the handler. */
  function Next(s: State, a: Step): State
    requires Fits(s) && Enabled(s, a)
  {
    match a
    case Refresh => if Refused(s) then s else Look(s)
    case Readd =>
      var t := s.(readding := s.readding - 1);
      if Refused(s) then t.(expiring := s.expiring + 1) else Look(t)
    case Renew => s.(renewing := s.renewing - 1, begin := s.now, delay := s.timeout)
    case Activate => s.(opening := s.opening - 1, setting := s.setting + 1, active := true)
    case Enqueue =>
      s.(setting := s.setting - 1, queued := s.queued + 1, begin := s.now, delay := Round(s.timeout, s.interval))
    case Place => s.(queued := s.queued - 1, placed := Hang(s))
    case Tick =>
      var t := s.(now := s.now + 1);
      if s.placed == 0 then t
      else if s.placed == 1 then t.(placed := 0, active := false, deciding := s.deciding + 1)
      else t.(placed := s.placed - 1)
    case Decide =>
      var t := s.(deciding := s.deciding - 1);
      if Elapsed(s) >= s.timeout then t.(expiring := s.expiring + 1)
      else t.(readding := s.readding + 1, delay := s.timeout - Elapsed(s))
    case Expire => s.(expiring := s.expiring - 1, expired := s.expired + 1)
  }

  ghost predicate Init(s: State) {
    && Fits(s)
    && s == State(s.interval, s.timeout, s.slots, s.now, s.now, false, s.timeout, 0, 0, 0, 0, 0, 0, 0, 0, 0)
  }

  /** No add looks while another one is under way. */
  predicate Alone(s: State, a: Step) {
    a.Refresh? || a.Readd? ==> Adds(s) == 0
  }

  /** Any run, or one whose adds do not overlap. */
  ghost predicate Run(solo: bool, s: State, steps: seq<Step>, t: State)
    decreases |steps|
  {
    if steps == [] then s == t
    else
      Fits(s) && Enabled(s, steps[0]) && (solo ==> Alone(s, steps[0])) && Run(solo, Next(s, steps[0]), steps[1..], t)
  }

  // ---- durations in intervals ----

  /** A number of ticks against the timeout. */
  lemma Lapse(e: nat, interval: nat, timeout: nat)
    requires 0 < interval <= timeout
    ensures var k := timeout / interval;
      && k >= 1
      && (e < k ==> timeout - e * interval >= interval)
      && (e >= k ==> timeout - e * interval < interval)
      && (e > k ==> e * interval >= timeout)
      && (e == k ==> (e * interval >= timeout <==> timeout % interval == 0))
      && (e >= k && timeout % interval == 0 ==> e * interval >= timeout)
  {
    var k, r := timeout / interval, timeout % interval;
    assert timeout == k * interval + r;
    OneLess(timeout, interval);
    if e < k {
      MulAtLeast(k - e, interval);
      assert (k - e) * interval == k * interval - e * interval;
    } else if e > k {
      MulAtLeast(e - k, interval);
      assert (e - k) * interval == e * interval - k * interval;
    }
  }

  /** What is left of a timeout has as many intervals as are left of its whole ones. */
  lemma LeftOver(e: nat, interval: nat, timeout: nat)
    requires 0 < interval <= timeout && e * interval < timeout
    ensures (timeout - e * interval) / interval == timeout / interval - e
  {
    var k, r := timeout / interval, timeout % interval;
    assert timeout == k * interval + r;
    Lapse(e, interval, timeout);
    assert (k - e) * interval == k * interval - e * interval;
    DivMul(k - e, interval, r);
  }

  lemma RoundedSpan(s: State)
    requires Fits(s)
    ensures Rounded(s) == Span(s) || (Rounded(s) == Span(s) + 1 && !Whole(s))
    ensures Round(s.timeout, s.interval) == Rounded(s) * s.interval >= s.interval
    ensures Round(s.timeout, s.interval) / s.interval == Rounded(s)
  {
    var k, r := Span(s), s.timeout % s.interval;
    assert s.timeout == k * s.interval + r;
    RoundExact(s.timeout, s.interval);
    var m := if r + r < s.interval then k else k + 1;
    assert Round(s.timeout, s.interval) == m * s.interval by {
      assert (k + 1) * s.interval == k * s.interval + s.interval;
    }
    DivMul(m, s.interval, 0);
    MulAtLeast(Rounded(s), s.interval);
  }

  /** All of this for one state. */
  lemma Units(s: State)
    requires Fits(s)
    ensures 1 <= Span(s) <= Rounded(s) && (Whole(s) ==> Rounded(s) == Span(s))
    ensures s.interval <= Round(s.timeout, s.interval) && s.timeout / s.interval == Span(s)
    ensures Round(s.timeout, s.interval) / s.interval == Rounded(s)
    ensures s.begin <= s.now && s.now - s.begin < Span(s) ==> Elapsed(s) + s.interval <= s.timeout
    ensures s.begin <= s.now && s.now - s.begin >= Span(s) ==> s.timeout < Elapsed(s) + s.interval
    ensures s.begin <= s.now && s.now - s.begin > Span(s) ==> s.timeout <= Elapsed(s)
    ensures s.begin <= s.now && s.now - s.begin == Span(s) ==> (s.timeout <= Elapsed(s) <==> Whole(s))
    ensures s.begin <= s.now && s.now - s.begin >= Span(s) && Whole(s) ==> s.timeout <= Elapsed(s)
    ensures s.begin <= s.now && Elapsed(s) < s.timeout ==>
      (s.timeout - Elapsed(s)) / s.interval == Span(s) - (s.now - s.begin)
  {
    RoundedSpan(s);
    if s.begin <= s.now {
      Lapse(s.now - s.begin, s.interval, s.timeout);
      if Elapsed(s) < s.timeout { LeftOver(s.now - s.begin, s.interval, s.timeout); }
    } else {
      Lapse(0, s.interval, s.timeout);
    }
  }

  // ---- when a check expires the timer ----

  /**
   Begin is never ahead of the clock. A delay is the timeout, or about to be reset, or that of a timer nobody can add
   any more. It is short only when a timeout with a remainder has almost passed.
   */
  ghost predicate Clock(s: State) {
    && Fits(s) && s.begin <= s.now
    && (s.delay < s.interval ==> s.now - s.begin >= Span(s) && !Whole(s))
    && (Refused(s) || s.delay == s.timeout || s.delay == Round(s.timeout, s.interval) || s.readding + Adds(s) > 0)
    && (s.delay <= s.timeout || s.delay == Round(s.timeout, s.interval))
    && (Whole(s) ==> s.placed <= Rounded(s))
  }

  lemma HangBound(s: State)
    requires Clock(s)
    ensures 1 <= Hang(s) && (s.delay >= s.interval ==> Hang(s) <= Rounded(s))
  {
    Units(s);
    if s.delay >= s.interval {
      OneLess(s.delay, s.interval);
      if s.delay <= s.timeout { Ordered(s.delay, s.timeout, s.interval); }
    }
  }

  lemma Ordered(a: nat, b: nat, interval: nat)
    requires interval > 0 && a <= b
    ensures a / interval <= b / interval
  {
    var q, r := a / interval, a % interval;
    assert a == q * interval + r;
    var q', r' := b / interval, b % interval;
    assert b == q' * interval + r';
    if q > q' {
      assert (q - q') * interval == q * interval - q' * interval;
      MulAtLeast(q - q', interval);
    }
  }

  lemma ClockKept(s: State, a: Step)
    requires Clock(s) && Enabled(s, a)
    ensures Clock(Next(s, a)) && Next(s, a).interval == s.interval && Next(s, a).timeout == s.timeout
    ensures Next(s, a).slots == s.slots
  {
    Units(s);
    HangBound(s);
    hide Elapsed, Round, Rounded, Span, Hang;
    assert Span(Next(s, a)) == Span(s) && Rounded(Next(s, a)) == Rounded(s) by { SameUnits(s, Next(s, a)); }
  }

  lemma SameUnits(s: State, t: State)
    requires Fits(s) && t.interval == s.interval && t.timeout == s.timeout && t.slots == s.slots
    ensures Fits(t) && Span(t) == Span(s) && Rounded(t) == Rounded(s) && Whole(t) == Whole(s)
  {}

  lemma {:induction false} ClockRun(solo: bool, s: State, steps: seq<Step>, t: State)
    requires Clock(s) && Run(solo, s, steps, t)
    ensures Clock(t) && t.interval == s.interval && t.timeout == s.timeout && t.slots == s.slots
    decreases |steps|
  {
    if steps != [] {
      ClockKept(s, steps[0]);
      ClockRun(solo, Next(s, steps[0]), steps[1..], t);
    }
  }

  lemma InitClock(s: State)
    requires Init(s)
    ensures Clock(s)
  {
    Units(s);
  }

  /**
   Over every run, a check that looks at the clock decides to expire the timer exactly when the timeout has passed
   since begin. A check may also expire the timer because adding it again is refused. Either way less than an interval
   of the timeout is left, and nothing if the timeout is a whole number of intervals.
   */
  lemma NeverEarly(s: State, steps: seq<Step>, t: State, a: Step)
    requires Init(s) && Run(false, s, steps, t) && Enabled(t, a)
    ensures Fits(t) && t.begin <= t.now
    ensures a.Decide? ==> (Next(t, a).expiring > t.expiring <==> Elapsed(t) >= t.timeout)
    ensures Next(t, a).expiring > t.expiring ==>
      (a.Decide? || a.Readd?) && t.timeout < Elapsed(t) + t.interval && (Whole(t) ==> t.timeout <= Elapsed(t))
  {
    InitClock(s);
    ClockRun(false, s, steps, t);
    Units(t);
    hide Run, Elapsed;
  }

  // ---- rounds ----

  /** Rounds of the timer in progress: being queued, queued, on the wheel, or in a check that has not expired it. */
  function Rounds(s: State): nat {
    s.opening + s.setting + s.queued + (if s.placed > 0 then 1 else 0) + Pending(s)
  }

  /** Without overlapping adds: the timer is active exactly while one round of it is being queued or on the wheel. */
  ghost predicate Tracked(s: State) {
    && Clock(s) && Adds(s) <= 1
    && s.setting + s.queued + (if s.placed > 0 then 1 else 0) == (if s.active then 1 else 0)
    && (s.opening > 0 ==> !s.active)
  }

  lemma TrackedKept(s: State, a: Step)
    requires Tracked(s) && Enabled(s, a) && Alone(s, a)
    ensures Tracked(Next(s, a))
  {
    ClockKept(s, a);
    HangBound(s);
    hide Elapsed, Round, Rounded, Span, Hang, Clock;
  }

  lemma {:induction false} TrackedRun(s: State, steps: seq<Step>, t: State)
    requires Tracked(s) && Run(true, s, steps, t)
    ensures Tracked(t)
    decreases |steps|
  {
    if steps != [] {
      hide Tracked;
      TrackedKept(s, steps[0]);
      TrackedRun(Next(s, steps[0]), steps[1..], t);
    }
  }

  lemma InitTracked(s: State)
    requires Init(s)
    ensures Tracked(s)
  {
    InitClock(s);
  }

  /** One round at most. */
  ghost predicate Sole(s: State) {
    Tracked(s) && Rounds(s) <= 1
  }

  /** And it hangs, and will hang, for no more than a timeout. */
  ghost predicate Single(s: State) {
    && Sole(s) && s.placed <= Rounded(s)
    && (s.queued > 0 ==> s.delay == s.timeout || s.delay == Round(s.timeout, s.interval))
  }

  /** A check whose add will be refused. */
  predicate Doomed(s: State) {
    s.readding > 0 && s.renewing == 0 && s.delay < s.interval
  }

  /** The next check will expire the timer: its begin is as old as its placement, and will not be renewed. */
  ghost predicate Final(s: State)
    requires Fits(s)
  {
    || s.opening + s.setting + s.readding > 0
    || (s.renewing == 0 && (s.queued > 0 || s.now - s.begin >= Span(s) - s.placed))
  }

  /** Bounds on the checks and on the ticks on the wheel still to come, if there are no refreshes. */
  ghost function ChecksLeft(s: State): nat
    requires Fits(s)
  {
    if Rounds(s) == 0 || Doomed(s) then 0 else if Final(s) then 1 else 2
  }

  ghost function TicksLeft(s: State): nat
    requires Fits(s)
  {
    s.placed + (if s.opening + s.setting + s.queued + s.readding > 0 && !Doomed(s) then Rounded(s) else 0)
    + (if ChecksLeft(s) == 2 then Rounded(s) else 0)
  }

  /** Without refreshes a round ends in an expiry or goes on. */
  lemma StepSole(s: State, a: Step)
    requires Sole(s) && Enabled(s, a) && Alone(s, a) && !a.Refresh?
    ensures var t := Next(s, a); Sole(t) && Rounds(t) + t.expiring + t.expired == Rounds(s) + s.expiring + s.expired
  {
    TrackedKept(s, a);
    HangBound(s);
    hide Elapsed, Round, Rounded, Span, Whole, Hang;
  }

  lemma {:induction false} Conserved(s: State, steps: seq<Step>, t: State)
    requires Sole(s) && Run(true, s, steps, t) && Refresh !in steps
    ensures Rounds(t) + t.expiring + t.expired == Rounds(s) + s.expiring + s.expired
    decreases |steps|
  {
    if steps != [] {
      assert steps[0] in steps && forall a | a in steps[1..] :: a in steps;
      StepSole(s, steps[0]);
      hide Sole, Rounds;
      Conserved(Next(s, steps[0]), steps[1..], t);
    }
  }

  lemma StepSingle(s: State, a: Step)
    requires Single(s) && Enabled(s, a) && Alone(s, a) && !a.Refresh?
    ensures Single(Next(s, a)) && Span(Next(s, a)) == Span(s) && Rounded(Next(s, a)) == Rounded(s)
  {
    StepSole(s, a);
    Units(s);
    HangBound(s);
    SameUnits(s, Next(s, a));
    hide Elapsed, Round, Rounded, Span, Whole;
  }

  lemma StepBound(s: State, a: Step)
    requires Single(s) && Enabled(s, a) && Alone(s, a) && !a.Refresh?
    ensures var t := Next(s, a);
      && Fits(t)
      && ChecksLeft(t) + (if a.Decide? then 1 else 0) <= ChecksLeft(s)
      && TicksLeft(t) + (if a.Tick? && s.placed > 0 then 1 else 0) <= TicksLeft(s)
  {
    StepSingle(s, a);
    Units(s);
    HangBound(s);
    hide Elapsed, Round, Rounded, Span, Whole;
  }

  function Checks(steps: seq<Step>): nat {
    if steps == [] then 0 else (if steps[0].Decide? then 1 else 0) + Checks(steps[1..])
  }

  /** The ticks of a run during which the timer is on the wheel. */
  ghost function WheelTicks(solo: bool, s: State, steps: seq<Step>, t: State): nat
    requires Run(solo, s, steps, t)
    decreases |steps|
  {
    if steps == [] then 0
    else (if steps[0].Tick? && s.placed > 0 then 1 else 0) + WheelTicks(solo, Next(s, steps[0]), steps[1..], t)
  }

  /**
   With one round, no overlapping adds and no refreshes there are at most two checks and two timeouts on the wheel.
   */
  lemma {:induction false} RefreshBounds(s: State, steps: seq<Step>, t: State)
    requires Single(s) && Run(true, s, steps, t) && Refresh !in steps
    ensures Fits(s) && Checks(steps) <= ChecksLeft(s) <= 2
    ensures WheelTicks(true, s, steps, t) <= TicksLeft(s) <= 2 * Rounded(s)
    decreases |steps|
  {
    if steps != [] {
      assert steps[0] in steps && forall a | a in steps[1..] :: a in steps;
      StepSingle(s, steps[0]);
      StepBound(s, steps[0]);
      hide Single, ChecksLeft, TicksLeft, Rounds, Rounded;
      RefreshBounds(Next(s, steps[0]), steps[1..], t);
    }
  }

  // ---- runs put together ----

  lemma Start(solo: bool, s: State)
    ensures Run(solo, s, [], s) && Checks([]) == 0 && WheelTicks(solo, s, [], s) == 0
  {}

  lemma {:induction false} Join(solo: bool, s: State, xs: seq<Step>, t: State, ys: seq<Step>, u: State)
      returns (steps: seq<Step>)
    requires Run(solo, s, xs, t) && Run(solo, t, ys, u)
    ensures steps == xs + ys && Run(solo, s, steps, u) && Checks(steps) == Checks(xs) + Checks(ys)
    ensures WheelTicks(solo, s, steps, u) == WheelTicks(solo, s, xs, t) + WheelTicks(solo, t, ys, u)
    decreases |xs|
  {
    steps := xs + ys;
    if xs == [] {
      assert steps == ys;
    } else {
      assert steps[1..] == xs[1..] + ys;
      var _ := Join(solo, Next(s, xs[0]), xs[1..], t, ys, u);
    }
  }

  lemma Then(solo: bool, s: State, xs: seq<Step>, t: State, a: Step) returns (steps: seq<Step>, u: State)
    requires Run(solo, s, xs, t) && Fits(t) && Enabled(t, a) && (solo ==> Alone(t, a))
    ensures steps == xs + [a] && u == Next(t, a) && Run(solo, s, steps, u)
    ensures Checks(steps) == Checks(xs) + (if a.Decide? then 1 else 0)
    ensures WheelTicks(solo, s, steps, u) ==
      WheelTicks(solo, s, xs, t) + (if a.Tick? && t.placed > 0 then 1 else 0)
  {
    u := Next(t, a);
    assert Run(solo, u, [], u) && [a][1..] == [];
    assert Run(solo, t, [a], u);
    steps := Join(solo, s, xs, t, [a], u);
  }

  /** What an add does that has seen the timer inactive, and is not interrupted. */
  lemma Open(solo: bool, s: State, xs: seq<Step>, t: State) returns (steps: seq<Step>, u: State)
    requires Run(solo, s, xs, t) && Fits(t) && t.opening > 0
    ensures steps == xs + [Activate, Enqueue] && Run(solo, s, steps, u) && Checks(steps) == Checks(xs)
    ensures WheelTicks(solo, s, steps, u) == WheelTicks(solo, s, xs, t)
    ensures u == t.(opening := t.opening - 1, queued := t.queued + 1, active := true, begin := t.now,
                    delay := Round(t.timeout, t.interval))
  {
    hide Run, Checks, WheelTicks;
    steps, u := Then(solo, s, xs, t, Activate);
    steps, u := Then(solo, s, steps, u, Enqueue);
    assert xs + [Activate] + [Enqueue] == xs + [Activate, Enqueue];
  }

  /** A timer on the wheel, ticked until it is found due. */
  lemma {:induction false} TickDown(solo: bool, s: State) returns (steps: seq<Step>, t: State)
    requires Fits(s) && s.placed >= 1
    ensures Run(solo, s, steps, t) && Checks(steps) == 0 && steps == seq(s.placed, _ => Step.Tick)
    ensures WheelTicks(solo, s, steps, t) == s.placed
    ensures t == s.(now := s.now + s.placed, placed := 0, active := false, deciding := s.deciding + 1)
    decreases s.placed
  {
    var u := Next(s, Step.Tick);
    if s.placed == 1 {
      t, steps := u, [Step.Tick];
      assert steps[1..] == [] && Run(solo, t, [], t);
    } else {
      var more;
      more, t := TickDown(solo, u);
      steps := [Step.Tick] + more;
      assert steps[1..] == more;
    }
  }

  /** The same at the end of a run. */
  lemma ThenDown(solo: bool, s: State, xs: seq<Step>, t: State) returns (steps: seq<Step>, u: State)
    requires Run(solo, s, xs, t) && Fits(t) && t.placed >= 1
    ensures steps == xs + seq(t.placed, _ => Step.Tick) && Run(solo, s, steps, u) && Checks(steps) == Checks(xs)
    ensures WheelTicks(solo, s, steps, u) == WheelTicks(solo, s, xs, t) + t.placed
    ensures u == t.(now := t.now + t.placed, placed := 0, active := false, deciding := t.deciding + 1)
  {
    hide Run, Checks, WheelTicks;
    var ticks;
    ticks, u := TickDown(solo, t);
    steps := Join(solo, s, xs, t, ticks, u);
  }

  // ---- when the bounds fail ----

  /** An active timer is being queued, queued or on the wheel. */
  ghost predicate Live(s: State) {
    Clock(s) && (s.active ==> s.setting + s.queued + s.placed > 0)
  }

  lemma LiveKept(s: State, a: Step)
    requires Live(s) && Enabled(s, a)
    ensures Live(Next(s, a))
  {
    ClockKept(s, a);
    HangBound(s);
    hide Elapsed, Round, Rounded, Span, Hang, Clock;
  }

  lemma {:induction false} LiveRun(solo: bool, s: State, steps: seq<Step>, t: State)
    requires Live(s) && Run(solo, s, steps, t)
    ensures Live(t)
    decreases |steps|
  {
    if steps != [] {
      hide Live;
      LiveKept(s, steps[0]);
      LiveRun(solo, Next(s, steps[0]), steps[1..], t);
    }
  }

  /** A timer on the wheel while a check of it is about to add it again. */
  ghost predicate Crossed(solo: bool, s: State) {
    && Fits(s) && s.placed > 0 && s.readding > 0 && s.begin <= s.now && s.delay >= s.interval
    && (solo ==> Adds(s) == 0)
  }

  lemma HangSome(s: State)
    requires Fits(s) && s.delay >= s.interval
    ensures Hang(s) > 0
  {
    OneLess(s.delay, s.interval);
  }

  /** A check at the very tick of begin adds the timer again, and what is queued can be placed. */
  lemma Cross(solo: bool, s: State, xs: seq<Step>, t: State) returns (steps: seq<Step>, u: State)
    requires Run(solo, s, xs, t) && Fits(t) && t.begin == t.now && t.delay >= t.interval
    requires Pending(t) > 0 && t.queued + t.placed > 0 && (solo ==> Adds(t) == 0)
    ensures Run(solo, s, steps, u) && Crossed(solo, u) && u.expired == t.expired && u.expiring == t.expiring
    ensures xs <= steps && Refresh !in steps[|xs|..]
    ensures Checks(steps) == Checks(xs) + (if t.deciding > 0 then 1 else 0)
  {
    hide Run, Checks, WheelTicks, Hang;
    steps, u := xs, t;
    if t.deciding > 0 { steps, u := Then(solo, s, steps, u, Decide); }
    HangSome(u);
    if t.placed == 0 { steps, u := Then(solo, s, steps, u, Place); }
  }

  /** A crossed timer can be checked once more and be crossed again: the pending check renews begin in between. */
  lemma CrossedOnceMore(solo: bool, s: State) returns (steps: seq<Step>, t: State)
    requires Crossed(solo, s)
    ensures Run(solo, s, steps, t) && Refresh !in steps && Checks(steps) == 1
    ensures Crossed(solo, t) && t.expired == s.expired && t.expiring == s.expiring
  {
    Start(solo, s);
    Units(s);
    hide Run, Checks, WheelTicks, Round;
    steps, t := ThenDown(solo, s, [], s);
    steps, t := Then(solo, s, steps, t, Readd);
    steps, t := Open(solo, s, steps, t);
    steps, t := Cross(solo, s, steps, t);
  }

  lemma {:induction false} CrossedForever(solo: bool, s: State, n: nat) returns (steps: seq<Step>, t: State)
    requires Crossed(solo, s)
    ensures Run(solo, s, steps, t) && Refresh !in steps && Checks(steps) == n
    ensures Crossed(solo, t) && t.expired == s.expired && t.expiring == s.expiring
    decreases n
  {
    if n == 0 {
      steps, t := [], s;
    } else {
      hide Run, Crossed, Checks, WheelTicks;
      var more, u;
      steps, u := CrossedOnceMore(solo, s);
      more, t := CrossedForever(solo, u, n - 1);
      steps := Join(solo, s, steps, u, more, t);
    }
  }

  /** What follows a refresh when it is not interrupted, and what it may find half done. */
  lemma PendingCrosses(solo: bool, t: State) returns (steps: seq<Step>, u: State)
    requires Live(t) && Pending(t) > 0 && !Refused(t) && (solo ==> Adds(t) == 0)
    ensures Run(solo, Next(t, Refresh), steps, u) && Refresh !in steps
    ensures Crossed(solo, u) && u.expired == t.expired && u.expiring == t.expiring
  {
    var r := Next(t, Refresh);
    Start(solo, r);
    Units(t);
    hide Run, Checks, WheelTicks, Round;
    if t.active {
      steps, u := Then(solo, r, [], r, Renew);
      if t.queued + t.placed == 0 { steps, u := Then(solo, r, steps, u, Enqueue); }
    } else {
      steps, u := Open(solo, r, [], r);
    }
    steps, u := Cross(solo, r, steps, u);
  }

  /**
   After a refresh that is not refused and finds a check pending, any number of checks can follow that do not expire
   the timer, whether or not adds overlap.
   */
  lemma PendingUnbounded(solo: bool, s: State, steps: seq<Step>, t: State, n: nat)
      returns (more: seq<Step>, u: State)
    requires Init(s) && Run(solo, s, steps, t) && Pending(t) > 0 && !Refused(t) && (solo ==> Adds(t) == 0)
    ensures Fits(t) && Run(solo, Next(t, Refresh), more, u) && Refresh !in more
    ensures Checks(more) >= n && u.expired == t.expired && u.expiring == t.expiring
  {
    InitClock(s);
    LiveRun(solo, s, steps, t);
    hide Run, Checks, WheelTicks, Crossed;
    var r := Next(t, Refresh);
    var xs, v, ys;
    xs, v := PendingCrosses(solo, t);
    ys, u := CrossedForever(solo, v, n);
    more := Join(solo, r, xs, v, ys, u);
  }

  /** The first refresh, up to the timer hanging on the wheel. */
  lemma FirstRound(solo: bool, s: State) returns (steps: seq<Step>, t: State)
    requires Init(s)
    ensures steps == [Refresh, Activate, Enqueue, Place] && Run(solo, s, steps, t) && Checks(steps) == 0
    ensures t == s.(active := true, placed := Rounded(s), delay := Round(s.timeout, s.interval)) && Rounded(s) >= 1
    ensures t.delay >= t.interval
  {
    Units(s);
    Start(solo, s);
    hide Run, Checks, WheelTicks, Round, Rounded;
    steps, t := Then(solo, s, [], s, Refresh);
    steps, t := Open(solo, s, steps, t);
    steps, t := Then(solo, s, steps, t, Place);
  }

  /** For every timeout and every n, a run with n checks after its last refresh that never expires the timer. */
  lemma NeverExpires(s: State, n: nat) returns (before: seq<Step>, after: seq<Step>, t: State, u: State)
    requires Init(s)
    ensures Run(true, s, before + [Refresh], t) && Run(true, t, after, u) && Refresh !in after
    ensures Checks(after) >= n && u.expired == 0 == u.expiring
  {
    var w;
    before, w := FirstRound(true, s);
    hide Run, Checks, WheelTicks;
    before, w := ThenDown(true, s, before, w);
    var xs;
    xs, t := Then(true, s, before, w, Refresh);
    after, u := PendingUnbounded(true, s, before, w, n);
  }

  /** A queued round with the rounded timeout, placed and ticked until it is found due. */
  lemma WholeRound(solo: bool, s: State, xs: seq<Step>, t: State) returns (steps: seq<Step>, u: State)
    requires Run(solo, s, xs, t) && Fits(t) && t.queued > 0 && t.delay == Round(t.timeout, t.interval)
    ensures Run(solo, s, steps, u) && xs <= steps && Refresh !in steps[|xs|..] && Checks(steps) == Checks(xs)
    ensures WheelTicks(solo, s, steps, u) == WheelTicks(solo, s, xs, t) + Rounded(t)
    ensures u == t.(now := t.now + Rounded(t), queued := t.queued - 1, placed := 0, active := false,
                    deciding := t.deciding + 1)
  {
    Units(t);
    hide Run, Checks, WheelTicks, Round, Rounded;
    steps, u := Then(solo, s, xs, t, Place);
    steps, u := ThenDown(solo, s, steps, u);
  }

  /** A check at the very tick of begin adds the timer again, if it is not active. */
  lemma Again(solo: bool, s: State, xs: seq<Step>, t: State) returns (steps: seq<Step>, u: State)
    requires Run(solo, s, xs, t) && Fits(t) && t.begin == t.now && t.deciding > 0 && !t.active && Adds(t) == 0
    ensures Run(solo, s, steps, u) && xs <= steps && Refresh !in steps[|xs|..] && Checks(steps) == Checks(xs) + 1
    ensures WheelTicks(solo, s, steps, u) == WheelTicks(solo, s, xs, t)
    ensures u == t.(deciding := t.deciding - 1, queued := t.queued + 1, active := true,
                    delay := Round(t.timeout, t.interval))
  {
    hide Run, Checks, WheelTicks, Round;
    steps, u := Then(solo, s, xs, t, Decide);
    steps, u := Then(solo, s, steps, u, Readd);
    steps, u := Open(solo, s, steps, u);
  }

  /** A timer that hangs for longer than a timeout, and is refreshed late, hangs for another timeout. */
  lemma HangsLonger(t: State) returns (steps: seq<Step>, u: State)
    requires Tracked(t) && Adds(t) == 0 == Pending(t) && t.placed > Rounded(t)
    ensures Run(true, Next(t, Refresh), steps, u) && Refresh !in steps
    ensures WheelTicks(true, Next(t, Refresh), steps, u) == t.placed + Rounded(t) > 2 * Rounded(t)
  {
    var r := Next(t, Refresh);
    Start(true, r);
    SameUnits(t, r);
    hide Run, Checks, WheelTicks, Round, Rounded, Clock;
    steps, u := ThenDown(true, r, [], r);
    steps, u := Then(true, r, steps, u, Renew);
    steps, u := Again(true, r, steps, u);
    SameUnits(t, u);
    steps, u := WholeRound(true, r, steps, u);
  }

  /** A queued round whose delay a check of another round has left short, placed for a full turn of the wheel. */
  lemma ShortPlacement(s: State, xs: seq<Step>, t: State) returns (steps: seq<Step>, u: State)
    requires Run(true, s, xs, t) && Fits(t) && !Whole(t)
    requires t.queued == 1 == t.deciding && t.readding == 0 == t.placed
    requires t.active && Adds(t) == 0 && t.begin <= t.now && t.now - t.begin == Span(t)
    ensures Run(true, s, steps, u) && Adds(u) == 0 == Pending(u) && !Refused(u) && u.placed == t.slots
    ensures u.interval == t.interval && u.timeout == t.timeout && u.slots == t.slots
  {
    Units(t);
    hide Run, Checks, WheelTicks, Elapsed, Span;
    steps, u := Then(true, s, xs, t, Decide);
    steps, u := Then(true, s, steps, u, Place);
    steps, u := Then(true, s, steps, u, Readd);
    steps, u := Then(true, s, steps, u, Renew);
  }

  /** Ticks of a timer that is not on the wheel. */
  lemma {:induction false} Wait(solo: bool, s: State, xs: seq<Step>, t: State, n: nat)
      returns (steps: seq<Step>, u: State)
    requires Run(solo, s, xs, t) && Fits(t) && t.placed == 0
    ensures Run(solo, s, steps, u) && u == t.(now := t.now + n)
    decreases n
  {
    hide Run, Checks, WheelTicks;
    steps, u := xs, t;
    if n > 0 {
      steps, u := Wait(solo, s, xs, t, n - 1);
      steps, u := Then(solo, s, steps, u, Step.Tick);
    }
  }

  /**
   For every timeout with a remainder, and a wheel of more slots than it has intervals, a run without overlapping adds
   after which the timer hangs for longer than a timeout with no check pending: its next refresh is not bounded.
   */
  lemma HangsTooLong(s: State) returns (steps: seq<Step>, t: State)
    requires Init(s) && !Whole(s) && Rounded(s) < s.slots
    ensures Run(true, s, steps, t) && Adds(t) == 0 == Pending(t) && !Refused(t) && Fits(t) && t.placed > Rounded(t)
  {
    Units(s);
    steps, t := FirstRound(true, s);
    hide Run, Checks, WheelTicks, Round, Rounded, Span, Whole;
    steps, t := ThenDown(true, s, steps, t);
    steps, t := Then(true, s, steps, t, Refresh);
    steps, t := Open(true, s, steps, t);
    steps, t := Wait(true, s, steps, t, Span(s));
    SameUnits(s, t);
    steps, t := ShortPlacement(s, steps, t);
    SameUnits(s, t);
  }

  // ---- when they hold ----

  /** The promised bounds: without refreshes, no more than two checks and two timeouts on the wheel. */
  ghost predicate Bounded(s: State)
    requires Fits(s)
  {
    forall steps, t | Run(true, s, steps, t) && Refresh !in steps ::
      Checks(steps) <= 2 && WheelTicks(true, s, steps, t) <= 2 * Rounded(s)
  }

  lemma OneRound(t: State)
    requires Tracked(t) && Adds(t) == 0 == Pending(t) && !Refused(t)
    ensures Sole(Next(t, Refresh)) && Rounds(Next(t, Refresh)) == 1
  {
    TrackedKept(t, Refresh);
    hide Clock;
  }

  lemma AfterRefresh(t: State)
    requires Tracked(t) && Adds(t) == 0 == Pending(t) && !Refused(t) && t.placed <= Rounded(t)
    ensures Single(Next(t, Refresh)) && Fits(Next(t, Refresh)) && Rounded(Next(t, Refresh)) == Rounded(t)
  {
    OneRound(t);
    SameUnits(t, Next(t, Refresh));
    hide Round, Rounded, Span;
  }

  /**
   Over every run whose adds do not overlap, what follows a refresh that is not refused, without another one, is
   bounded by two checks and two timeouts on the wheel if and only if no check was pending when it looked and the
   timer did not hang for longer than a timeout; with a whole timeout it never does. With a check pending the checks
   have no bound at all.
   */
  lemma BoundsIff(s: State, steps: seq<Step>, t: State)
    requires Init(s) && Run(true, s, steps, t) && Adds(t) == 0 && !Refused(t)
    ensures Fits(t) && Fits(Next(t, Refresh))
    ensures Bounded(Next(t, Refresh)) <==> Pending(t) == 0 && t.placed <= Rounded(t)
    ensures Whole(t) ==> t.placed <= Rounded(t)
  {
    InitTracked(s);
    TrackedRun(s, steps, t);
    SameUnits(t, Next(t, Refresh));
    var r := Next(t, Refresh);
    hide Run, Checks, WheelTicks, Round, Rounded, Span, Single, ChecksLeft, TicksLeft;
    if Pending(t) > 0 {
      var more, u := PendingUnbounded(true, s, steps, t, 3);
    } else if t.placed > Rounded(t) {
      var more, u := HangsLonger(t);
    } else {
      AfterRefresh(t);
      forall more, u | Run(true, r, more, u) && Refresh !in more
        ensures Checks(more) <= 2 && WheelTicks(true, r, more, u) <= 2 * Rounded(r)
      {
        RefreshBounds(r, more, u);
      }
    }
  }

  /** A refresh that overlaps no other add and finds no check pending is followed, at the end, by one expiry. */
  lemma ExpiresOnce(s: State, steps: seq<Step>, t: State, more: seq<Step>, u: State)
    requires Init(s) && Run(true, s, steps, t) && Adds(t) == 0 == Pending(t) && !Refused(t) && Fits(t)
    requires Run(true, Next(t, Refresh), more, u) && Refresh !in more && Rounds(u) == 0 == u.expiring
    ensures u.expired == t.expired + t.expiring + 1
  {
    InitTracked(s);
    TrackedRun(s, steps, t);
    hide Run;
    OneRound(t);
    Conserved(Next(t, Refresh), more, u);
  }

  // ---- overlapping adds ----

  /** Some ticks of a timer on the wheel. */
  lemma {:induction false} TickSome(solo: bool, s: State, xs: seq<Step>, t: State, n: nat)
      returns (steps: seq<Step>, u: State)
    requires Run(solo, s, xs, t) && Fits(t) && n < t.placed
    ensures steps == xs + seq(n, _ => Step.Tick) && Run(solo, s, steps, u) && Checks(steps) == Checks(xs)
    ensures WheelTicks(solo, s, steps, u) == WheelTicks(solo, s, xs, t) + n
    ensures u == t.(now := t.now + n, placed := t.placed - n)
    decreases n
  {
    hide Run, Checks, WheelTicks;
    steps, u := xs, t;
    if n == 0 {
      assert xs + [] == xs;
    } else {
      steps, u := TickSome(solo, s, xs, t, n - 1);
      var more;
      more, u := Then(solo, s, steps, u, Step.Tick);
      assert xs + seq(n - 1, _ => Step.Tick) + [Step.Tick] == xs + seq(n, _ => Step.Tick);
      steps := more;
    }
  }

  /** A check that comes when all whole intervals of the timeout have passed expires the timer, at once or refused. */
  lemma Settle(solo: bool, s: State, xs: seq<Step>, t: State) returns (steps: seq<Step>, u: State)
    requires Run(solo, s, xs, t) && Fits(t) && t.deciding > 0 && !t.active && t.readding == 0 == Adds(t)
    requires t.begin <= t.now && t.now - t.begin >= Span(t)
    ensures Run(solo, s, steps, u) && xs <= steps && Refresh !in steps[|xs|..] && Checks(steps) == Checks(xs) + 1
    ensures WheelTicks(solo, s, steps, u) == WheelTicks(solo, s, xs, t)
    ensures u == t.(deciding := t.deciding - 1, expiring := t.expiring + 1, delay := u.delay)
  {
    Units(t);
    hide Run, Checks, WheelTicks, Elapsed, Span;
    steps, u := Then(solo, s, xs, t, Decide);
    if u.readding > 0 { steps, u := Then(solo, s, steps, u, Readd); }
  }

  /** Two callers see the timer inactive, and one of them has queued it. */
  lemma TwoLooked(s: State) returns (steps: seq<Step>, t: State)
    requires Init(s)
    ensures steps == [Refresh, Refresh, Activate, Enqueue, Place] && Run(false, s, steps, t) && Rounded(s) >= 1
    ensures t == s.(active := true, opening := 1, placed := Rounded(s), delay := Round(s.timeout, s.interval))
  {
    Units(s);
    Start(false, s);
    hide Run, Checks, WheelTicks, Round, Rounded;
    steps, t := Then(false, s, [], s, Refresh);
    steps, t := Then(false, s, steps, t, Refresh);
    steps, t := Open(false, s, steps, t);
    steps, t := Then(false, s, steps, t, Place);
    assert steps == [Refresh, Refresh, Activate, Enqueue, Place];
  }

  /** How two adds overlap, the second ending when fewer ticks are left than the timeout has whole intervals. */
  ghost function Overlap(s: State): seq<Step>
    requires Fits(s) && 2 <= Span(s) <= Rounded(s)
  {
    [Refresh, Refresh, Activate, Enqueue, Place] + seq(Rounded(s) - Span(s) + 1, _ => Step.Tick) + [Activate, Enqueue]
  }

  lemma TwoQueued(s: State) returns (t: State)
    requires Init(s) && 2 <= Span(s) <= Rounded(s)
    ensures Run(false, s, Overlap(s), t)
    ensures t == s.(now := s.now + Rounded(s) - Span(s) + 1, begin := s.now + Rounded(s) - Span(s) + 1, active := true,
                    queued := 1, placed := Span(s) - 1, delay := Round(s.timeout, s.interval))
  {
    var steps;
    steps, t := TwoLooked(s);
    hide Run, Checks, WheelTicks, Round, Rounded, Span;
    steps, t := TickSome(false, s, steps, t, Rounded(s) - Span(s) + 1);
    steps, t := Open(false, s, steps, t);
  }

  /** The first placement is found due before the second begin is old enough: its check adds the timer again. */
  lemma OverlappedRound(s: State) returns (steps: seq<Step>, t: State)
    requires Fits(s) && s.queued == 1 && s.placed == Span(s) - 1 >= 1 && s.begin == s.now
    requires Adds(s) == 0 == Pending(s)
    ensures Run(true, s, steps, t) && Refresh !in steps && Checks(steps) == 1
    ensures WheelTicks(true, s, steps, t) == Span(s) - 1
    ensures t == s.(now := s.now + Span(s) - 1, begin := s.now + Span(s) - 1, placed := 0, queued := 2, active := true,
                    delay := Round(s.timeout, s.interval))
  {
    Start(true, s);
    hide Run, Checks, WheelTicks, Round;
    steps, t := ThenDown(true, s, [], s);
    Units(t);
    hide Elapsed, Span, Rounded;
    steps, t := Then(true, s, steps, t, Decide);
    steps, t := Then(true, s, steps, t, Readd);
    steps, t := Open(true, s, steps, t);
  }

  /** Two queued rounds, the second placed before the check of the first, give two expiries. */
  lemma TwoRounds(s: State, xs: seq<Step>, t: State) returns (steps: seq<Step>, u: State)
    requires Run(true, s, xs, t) && Refresh !in xs && Fits(t) && t.queued == 2 && t.placed == 0 == Pending(t)
    requires t.expiring == 0 == Adds(t) && t.begin == t.now && t.delay == Round(t.timeout, t.interval)
    ensures Run(true, s, steps, u) && Refresh !in steps && Checks(steps) == Checks(xs) + 2
    ensures WheelTicks(true, s, steps, u) == WheelTicks(true, s, xs, t) + 2 * Rounded(t)
    ensures Rounds(u) == 0 == u.expiring && u.expired == t.expired + 2
  {
    Units(t);
    hide Run, Checks, WheelTicks, Round, Rounded, Span;
    steps, u := WholeRound(true, s, xs, t);
    steps, u := Then(true, s, steps, u, Place);
    SameUnits(t, u);
    steps, u := Settle(true, s, steps, u);
    steps, u := ThenDown(true, s, steps, u);
    SameUnits(t, u);
    steps, u := Settle(true, s, steps, u);
    steps, u := Then(true, s, steps, u, Expire);
    steps, u := Then(true, s, steps, u, Expire);
  }

  /**
   For every timeout of at least two intervals: two callers see the timer inactive, one of them queues it, and some
   ticks after it was placed so does the other. No check is pending then nor any add under way, no add overlaps another
   from there on and there is no refresh; and yet there are three checks, more than two timeouts on the wheel, and two
   expiries.
   */
  lemma OverlapBreaks(s: State) returns (t: State, after: seq<Step>, u: State)
    requires Init(s) && Span(s) >= 2
    ensures Span(s) <= Rounded(s) && Run(false, s, Overlap(s), t)
    ensures Adds(t) == 0 == Pending(t) && t.expired == 0 == t.expiring && t.active
    ensures Run(true, t, after, u) && Refresh !in after && Checks(after) == 3
    ensures WheelTicks(true, t, after, u) == Span(s) - 1 + 2 * Rounded(s) > 2 * Rounded(s)
    ensures Rounds(u) == 0 == u.expiring && u.expired == 2
  {
    Units(s);
    t := TwoQueued(s);
    SameUnits(s, t);
    hide Run, Checks, WheelTicks, Round, Rounded, Span, Overlap;
    var v;
    after, v := OverlappedRound(t);
    SameUnits(s, v);
    after, u := TwoRounds(t, after, v);
  }

  /**
   For every timeout and every n: both callers look before any check, the second queues the timer while the first
   placement is being checked, and n checks follow without a refresh and without an expiry.
   */
  lemma OverlapNeverExpires(s: State, n: nat) returns (t: State, after: seq<Step>, u: State)
    requires Init(s)
    ensures Run(false, s,
      [Refresh, Refresh, Activate, Enqueue, Place] + seq(Rounded(s), _ => Step.Tick) + [Activate, Enqueue], t)
    ensures Adds(t) == 0 && Run(true, t, after, u) && Refresh !in after
    ensures Checks(after) >= n && u.expired == 0 == u.expiring
  {
    var steps, v, more;
    Units(s);
    steps, t := TwoLooked(s);
    hide Run, Checks, WheelTicks, Round, Rounded;
    steps, t := ThenDown(false, s, steps, t);
    steps, t := Open(false, s, steps, t);
    Start(true, t);
    after, v := Cross(true, t, [], t);
    more, u := CrossedForever(true, v, n);
    after := Join(true, t, after, v, more, u);
  }

  // ---- timers that can never be added again ----

  /** An expired timer whose delay was left too short. */
  ghost predicate Dead(s: State) {
    Fits(s) && Refused(s) && Adds(s) == 0 == Rounds(s)
  }

  /** It is refused for good. */
  lemma {:induction false} DeadForGood(s: State, steps: seq<Step>, t: State)
    requires Dead(s) && Run(false, s, steps, t)
    ensures Dead(t) && t.expired + t.expiring == s.expired + s.expiring
    decreases |steps|
  {
    if steps != [] {
      DeadForGood(Next(s, steps[0]), steps[1..], t);
    }
  }

  /** A round found due when exactly the whole intervals of a timeout with a remainder have passed. */
  lemma DiesAt(s: State, xs: seq<Step>, t: State) returns (steps: seq<Step>, u: State)
    requires Run(true, s, xs, t) && Fits(t) && !Whole(t) && t.begin == t.now && t.placed == Span(t) >= 1
    requires Adds(t) == 0 == Pending(t) && t.queued == 0 == t.expiring
    ensures Run(true, s, steps, u) && Dead(u) && u.expired == t.expired + 1 && u.expiring == 0
    ensures u.begin <= u.now && Elapsed(u) < u.timeout
  {
    hide Run, Checks, WheelTicks;
    steps, u := ThenDown(true, s, xs, t);
    Units(u);
    hide Elapsed, Span, Rounded;
    steps, u := Then(true, s, steps, u, Decide);
    steps, u := Then(true, s, steps, u, Readd);
    steps, u := Then(true, s, steps, u, Expire);
  }

  /** Every timeout with a remainder has a run in which the timer expires once, early, and can never be added again. */
  lemma Dies(s: State) returns (steps: seq<Step>, t: State)
    requires Init(s) && !Whole(s)
    ensures Run(true, s, steps, t) && Dead(t) && t.expired == 1 && t.expiring == 0
    ensures t.begin <= t.now && Elapsed(t) < t.timeout
  {
    RoundedSpan(s);
    Units(s);
    steps, t := FirstRound(true, s);
    SameUnits(s, t);
    hide Run, Checks, WheelTicks, Round, Rounded, Span, Whole;
    if Rounded(s) > Span(s) {
      steps, t := Then(true, s, steps, t, Step.Tick);
      steps, t := Then(true, s, steps, t, Refresh);
      steps, t := Then(true, s, steps, t, Renew);
      SameUnits(s, t);
    }
    steps, t := DiesAt(s, steps, t);
  }

  lemma {:induction false} Overlapping(s: State, steps: seq<Step>, t: State)
    requires Run(true, s, steps, t)
    ensures Run(false, s, steps, t)
    decreases |steps|
  {
    if steps != [] {
      Overlapping(Next(s, steps[0]), steps[1..], t);
    }
  }

  /** In no run an add is refused. */
  ghost predicate Addable(s: State) {
    forall steps, t | Run(false, s, steps, t) :: !Refused(t)
  }

  /** No add is ever refused if and only if the timeout is a whole number of intervals. */
  lemma AddableIff(s: State)
    requires Init(s)
    ensures Addable(s) <==> Whole(s)
  {
    hide Run;
    if Whole(s) {
      InitClock(s);
      forall steps, t | Run(false, s, steps, t) ensures !Refused(t) {
        ClockRun(false, s, steps, t);
        SameUnits(s, t);
      }
    } else {
      var steps, t := Dies(s);
      Overlapping(s, steps, t);
      assert Run(false, s, steps, t) && Refused(t);
      assert !Addable(s);
    }
  }

  // ---- when the handler runs ----

  /** No step stores a begin. */
  predicate NoAdds(steps: seq<Step>) {
    Renew !in steps && Enqueue !in steps
  }

  function Ticks(steps: seq<Step>): nat {
    if steps == [] then 0 else (if steps[0].Tick? then 1 else 0) + Ticks(steps[1..])
  }

  /** The ticks after the last step that stores a begin. */
  function TicksSinceAdd(steps: seq<Step>): (n: nat)
    ensures n <= Ticks(steps)
  {
    if NoAdds(steps) then Ticks(steps) else TicksSinceAdd(steps[1..])
  }

  lemma {:induction false} SinceBegin(s: State, steps: seq<Step>, t: State)
    requires Clock(s) && Run(false, s, steps, t)
    ensures t.interval == s.interval && t.timeout == s.timeout
    ensures t.now - t.begin == if NoAdds(steps) then s.now - s.begin + Ticks(steps) else TicksSinceAdd(steps)
    decreases |steps|
  {
    if steps != [] {
      ClockKept(s, steps[0]);
      SinceBegin(Next(s, steps[0]), steps[1..], t);
      assert steps == [steps[0]] + steps[1..];
    }
  }

  lemma Longer(a: nat, b: nat, interval: nat)
    requires a <= b
    ensures a * interval <= b * interval
  {}

  /**
   A check that decided to expire the timer runs its handler a timeout after begin if and only if no begin was stored
   since the decision, or a timeout has passed since one was. Within a timeout of the decision only the first counts.
   */
  lemma HandlerOnTimeIff(s: State, before: seq<Step>, d: State, steps: seq<Step>, t: State)
    requires Init(s) && Run(false, s, before, d) && Fits(d) && Enabled(d, Decide) && Elapsed(d) >= d.timeout
    requires Run(false, Next(d, Decide), steps, t) && Enabled(t, Expire)
    ensures t.begin <= t.now
    ensures Elapsed(t) >= t.timeout <==> NoAdds(steps) || TicksSinceAdd(steps) * t.interval >= t.timeout
    ensures Ticks(steps) * t.interval < t.timeout ==> (Elapsed(t) >= t.timeout <==> NoAdds(steps))
  {
    InitClock(s);
    ClockRun(false, s, before, d);
    ClockKept(d, Decide);
    ClockRun(false, Next(d, Decide), steps, t);
    SinceBegin(Next(d, Decide), steps, t);
    hide Run, NoAdds, Ticks, TicksSinceAdd, Clock;
    if NoAdds(steps) { Longer(d.now - d.begin, t.now - t.begin, t.interval); }
    Longer(TicksSinceAdd(steps), Ticks(steps), t.interval);
  }

  /** A first round that is found due and, a tick later, checked. */
  lemma LateCheck(solo: bool, s: State, xs: seq<Step>, t: State) returns (steps: seq<Step>, u: State)
    requires Run(solo, s, xs, t) && Fits(t) && t.begin == t.now && t.placed == Rounded(t) && t.deciding == 0
    ensures Run(solo, s, steps, u) && xs <= steps && Refresh !in steps[|xs|..]
    ensures u == t.(now := t.now + Rounded(t) + 1, placed := 0, active := false, expiring := t.expiring + 1)
  {
    Units(t);
    hide Run, Checks, WheelTicks, Rounded;
    steps, u := ThenDown(solo, s, xs, t);
    steps, u := Then(solo, s, steps, u, Step.Tick);
    Units(u);
    SameUnits(t, u);
    hide Elapsed, Span;
    steps, u := Then(solo, s, steps, u, Decide);
  }

  /** For every timeout, a run in which the handler is about to run though the timer has just been refreshed. */
  lemma RefreshTooLate(s: State) returns (steps: seq<Step>, t: State)
    requires Init(s)
    ensures Run(true, s, steps + [Refresh, Activate, Enqueue], t) && Enabled(t, Expire) && t.begin == t.now && t.active
  {
    var u, all;
    steps, u := FirstRound(true, s);
    SameUnits(s, u);
    hide Run, Checks, WheelTicks, Rounded, Round;
    steps, u := LateCheck(true, s, steps, u);
    all, t := Then(true, s, steps, u, Refresh);
    all, t := Open(true, s, all, t);
    assert all == steps + [Refresh, Activate, Enqueue];
  }

  /**
   For every timeout, a refresh that is lost: it sees the timer active and no check pending, but stores its begin only
   after the check has decided. The timer expires at the very tick of its begin, and is left without a round.
   */
  lemma RefreshLost(s: State) returns (before: seq<Step>, t: State, after: seq<Step>, u: State)
    requires Init(s)
    ensures Run(true, s, before, t) && t.active && Pending(t) == 0 == Adds(t)
    ensures Fits(t) && Run(true, Next(t, Refresh), after, u) && Refresh !in after
    ensures u.expired == 1 && u.begin == u.now && Rounds(u) == 0 == u.expiring && Adds(u) == 0
  {
    before, t := FirstRound(true, s);
    var r := Next(t, Refresh);
    Start(true, r);
    SameUnits(s, r);
    hide Run, Checks, WheelTicks, Rounded, Round;
    after, u := LateCheck(true, r, [], r);
    after, u := Then(true, r, after, u, Renew);
    after, u := Then(true, r, after, u, Expire);
  }
}
