/**
 The TCP write protocol (tcpconn.go): any number of API threads append to the outbound buffer and then notify or
 flush, one poller thread runs the write callback while write interest is armed, and the socket takes any part of
 what it is handed, would block, or fails. Each step is one access to shared state; a write that copies several slices
 appends them one by one.
 */
module TcpWrite {
  import opened Bytes
  import opened WriteToken

  /** Where a thread stands. Thread 0 is the poller; only it disarms, and only the others append. */
  datatype Pc =
    | Idle
    | Appended                 // data is in the buffer, `writing` not tried yet
    | Locked                   // about to peek
    | Peeked(bs: seq<byte>)    // about to call the socket with these bytes
    | Wrote(n: nat)            // the socket took n bytes, not yet skipped
    | Skipped                  // about to look whether anything is left
    | ToDisarm | ToUnlock      // nothing was left
    | Recheck | Retry          // after unlocking: look again, try to lock again
    | ToArm                    // about to arm write interest
    | Broken(armed: bool)      // gave up with an error, leaving the lock taken

  datatype State = State(
    appended: seq<byte>,       // all bytes ever appended, in append order
    sent: seq<byte>,           // all bytes the socket accepted, in order
    out: seq<byte>,            // unread bytes of the outbound buffer
    writing: bool,             // the `writing` lock word
    armed: bool,               // whether the poller monitors writability
    pc: seq<Pc>)

  datatype Step =
    | Append(data: seq<byte>) | TryNotify | TryFlush | Wake | Peek(k: nat)
    | Accept(n: nat) | WouldBlock | Fail | Skip | Check | Disarm | Unlock | Look | TryAgain | Arm

  predicate Enabled(s: State, i: nat, a: Step) {
    && i < |s.pc|
    && match a {
         case Append(_) => i > 0 && (s.pc[i].Idle? || s.pc[i].Appended?)
         case TryNotify => s.pc[i].Appended?
         case TryFlush => s.pc[i].Appended?
         case Wake => i == 0 && s.armed && s.pc[i].Idle?
         case Peek(k) => s.pc[i].Locked? && k <= |s.out| && (s.out != [] ==> k > 0)
         case Accept(n) => s.pc[i].Peeked? && n <= |s.pc[i].bs|
         case WouldBlock => s.pc[i].Peeked?
         case Fail => s.pc[i].Peeked? || s.pc[i].ToArm? || s.pc[i].ToDisarm?
         case Skip => s.pc[i].Wrote? && s.pc[i].n <= |s.out|
         case Check => s.pc[i].Skipped?
         case Disarm => s.pc[i].ToDisarm?
         case Unlock => s.pc[i].ToUnlock?
         case Look => s.pc[i].Recheck?
         case TryAgain => s.pc[i].Retry?
         case Arm => s.pc[i].ToArm?
       }
  }

  function Next(s: State, i: nat, a: Step): State
    requires Enabled(s, i, a)
  {
    match a
    case Append(data) => s.(appended := s.appended + data, out := s.out + data, pc := s.pc[i := Appended])
    case TryNotify => if s.writing then s.(pc := s.pc[i := Idle]) else s.(writing := true, pc := s.pc[i := ToArm])
    case TryFlush => if s.writing then s.(pc := s.pc[i := Idle]) else s.(writing := true, pc := s.pc[i := Locked])
    case Wake => s.(pc := s.pc[i := Locked])
    case Peek(k) => s.(pc := s.pc[i := Peeked(s.out[..k])])
    case Accept(n) => s.(sent := s.sent + s.pc[i].bs[..n], pc := s.pc[i := Wrote(n)])
    case WouldBlock => s.(pc := s.pc[i := if i == 0 then Idle else ToArm])
    case Fail => s.(pc := s.pc[i := Broken(s.armed)])
    case Skip => s.(out := s.out[s.pc[i].n..], pc := s.pc[i := Skipped])
    case Check =>
      s.(pc := s.pc[i := if s.out != [] then (if i == 0 then Idle else ToArm)
                         else if i == 0 then ToDisarm else ToUnlock])
    case Disarm => s.(armed := false, pc := s.pc[i := ToUnlock])
    case Unlock => s.(writing := false, pc := s.pc[i := Recheck])
    case Look => s.(pc := s.pc[i := if s.out != [] then Retry else Idle])
    case TryAgain => if s.writing then s.(pc := s.pc[i := Idle]) else s.(writing := true, pc := s.pc[i := ToArm])
    case Arm => s.(armed := true, pc := s.pc[i := Idle])
  }

  /** A connection with any number of API threads before anything was written. */
  ghost predicate Init(s: State) {
    && s.appended == s.sent == s.out == [] && !s.writing && !s.armed
    && |s.pc| > 0 && forall i | 0 <= i < |s.pc| :: s.pc[i].Idle?
  }

  ghost predicate Run(s: State, steps: seq<(nat, Step)>, t: State)
    decreases |steps|
  {
    if steps == [] then s == t else
      Enabled(s, steps[0].0, steps[0].1) && Run(Next(s, steps[0].0, steps[0].1), steps[1..], t)
  }

  // ---- invariants ----

  /** The poller acts for armed interest, and the other threads for the lock they took, from peek to check. */
  function RoleOf(i: nat, p: Pc): Role {
    match p
    case Idle => Free
    case Appended => Free
    case Recheck => Free
    case Retry => Free
    case ToUnlock => Held
    case ToArm => Held
    case Broken(armed) => if armed then Busy else Held
    case _ => if i == 0 then Busy else Held
  }

  function Lock(s: State): Token {
    TokenOf(s.writing, s.armed, s.pc, RoleOf)
  }

  predicate Holds(i: nat, p: Pc) {
    !RoleOf(i, p).Free?
  }

  /**
   The lock has exactly one owner, a thread or the armed interest; only API threads append, only the poller
   disarms.
   */
  ghost predicate Ownership(s: State) {
    && Owned(Lock(s))
    && |s.pc| > 0 && !s.pc[0].Appended?
    && (forall i | 0 < i < |s.pc| :: !s.pc[i].ToDisarm?)
  }

  /** Accepted bytes, then bytes still to be accepted, are the appended bytes. */
  ghost predicate Data(s: State) {
    && (forall i | 0 <= i < |s.pc| && s.pc[i].Peeked? :: s.pc[i].bs <= s.out)
    && (forall i | 0 <= i < |s.pc| && s.pc[i].Wrote? ::
          s.pc[i].n <= |s.out| && s.appended == s.sent + s.out[s.pc[i].n..])
    && ((forall i | 0 <= i < |s.pc| :: !s.pc[i].Wrote?) ==> s.appended == s.sent + s.out)
  }

  predicate WillTry(p: Pc) {
    p.Appended? || p.Recheck? || p.Retry?
  }

  /** With data and a free lock, some thread is still going to try the lock. */
  ghost predicate Attended(s: State) {
    s.out != [] && !s.writing ==> exists i :: 0 <= i < |s.pc| && WillTry(s.pc[i])
  }

  ghost predicate Inv(s: State) {
    Ownership(s) && Data(s) && Attended(s)
  }

  lemma OwnershipKept(s: State, i: nat, a: Step)
    requires Ownership(s) && Enabled(s, i, a)
    ensures Ownership(Next(s, i, a))
  {
    hide Owned;
    var t := Next(s, i, a);
    OwnedFacts(s, i);
    assert t.pc == s.pc[i := t.pc[i]];
    hide TokenOf;
    StaysOwned(RoleOf, i, s.pc, s.writing, s.armed, t.pc[i], t.writing, t.armed);
  }

  lemma OwnedFacts(s: State, i: nat)
    requires Owned(Lock(s)) && i < |s.pc|
    ensures RoleOf(i, s.pc[i]).Held? ==> s.writing && !s.armed
    ensures RoleOf(i, s.pc[i]).Busy? ==> s.writing && s.armed && i == 0
    ensures s.armed ==> s.writing
  {
    assert Lock(s).roles[i] == RoleOf(i, s.pc[i]);
    assert Lock(s).roles[0] == RoleOf(0, s.pc[0]);
  }

  /** No two threads act for the lock. */
  lemma OneWriter(s: State, i: nat, j: nat)
    requires Owned(Lock(s)) && i < |s.pc| && j < |s.pc| && Holds(i, s.pc[i]) && Holds(j, s.pc[j])
    ensures i == j
  {
    assert !Lock(s).roles[i].Free? && !Lock(s).roles[j].Free?;
  }

  lemma DataAppended(s: State, i: nat, data: seq<byte>)
    requires Data(s) && Enabled(s, i, Append(data))
    ensures Data(Next(s, i, Append(data)))
  {
    var t := Next(s, i, Append(data));
    forall j | 0 <= j < |t.pc| && t.pc[j].Wrote? ensures t.pc[j].n <= |t.out| &&
      t.appended == t.sent + t.out[t.pc[j].n..] {
      assert s.pc[j].Wrote?;
      assert t.out[t.pc[j].n..] == s.out[t.pc[j].n..] + data;
    }
    if forall j | 0 <= j < |t.pc| :: !t.pc[j].Wrote? {
      forall j | 0 <= j < |s.pc| ensures !s.pc[j].Wrote? { assert !t.pc[j].Wrote?; }
    }
  }

  lemma OnlyWriter(s: State, i: nat)
    requires Owned(Lock(s)) && i < |s.pc| && Holds(i, s.pc[i])
    ensures forall j | 0 <= j < |s.pc| && j != i :: !s.pc[j].Wrote? && !s.pc[j].Peeked?
  {
    hide Owned;
    forall j | 0 <= j < |s.pc| && j != i ensures !s.pc[j].Wrote? && !s.pc[j].Peeked? {
      if Holds(j, s.pc[j]) { OneWriter(s, i, j); }
    }
  }

  lemma DataAccepted(s: State, i: nat, n: nat)
    requires Ownership(s) && Data(s) && Enabled(s, i, Accept(n))
    ensures Data(Next(s, i, Accept(n)))
  {
    hide Owned;
    OnlyWriter(s, i);
    assert forall j | 0 <= j < |s.pc| :: !s.pc[j].Wrote?;
    SplitFront(s.sent, s.pc[i].bs, s.out, n);
    var t := Next(s, i, Accept(n));
    assert t.pc[i].Wrote?;
  }

  lemma DataSkipped(s: State, i: nat)
    requires Ownership(s) && Data(s) && Enabled(s, i, Skip)
    ensures Data(Next(s, i, Skip))
  {
    hide Owned;
    OnlyWriter(s, i);
  }

  /** A step that moves no bytes, and no thread from or to the place between the socket call and the skip. */
  lemma DataSame(s: State, t: State, i: nat)
    requires Data(s) && i < |s.pc| == |t.pc| && t.pc == s.pc[i := t.pc[i]] && !s.pc[i].Wrote? && !t.pc[i].Wrote?
    requires t.appended == s.appended && t.sent == s.sent && t.out == s.out
    requires t.pc[i].Peeked? ==> t.pc[i].bs <= t.out
    ensures Data(t)
  {
    if forall j | 0 <= j < |t.pc| :: !t.pc[j].Wrote? {
      forall j | 0 <= j < |s.pc| ensures !s.pc[j].Wrote? { assert !t.pc[j].Wrote?; }
    }
  }

  lemma DataKept(s: State, i: nat, a: Step)
    requires Ownership(s) && Data(s) && Enabled(s, i, a)
    ensures Data(Next(s, i, a))
  {
    hide Owned, Data;
    if a.Append? {
      DataAppended(s, i, a.data);
    } else if a.Accept? {
      DataAccepted(s, i, a.n);
    } else if a.Skip? {
      DataSkipped(s, i);
    } else {
      DataSame(s, Next(s, i, a), i);
    }
  }

  lemma AttendedKept(s: State, i: nat, a: Step)
    requires Ownership(s) && Attended(s) && Enabled(s, i, a)
    ensures Attended(Next(s, i, a))
  {
    hide Owned;
    OwnedFacts(s, i);
    var t := Next(s, i, a);
    assert t.out != [] && !t.writing ==> WillTry(t.pc[i]);
  }

  lemma {:induction false} Reachable(s: State, steps: seq<(nat, Step)>, t: State)
    requires Inv(s) && Run(s, steps, t)
    ensures Inv(t)
    decreases |steps|
  {
    if steps != [] {
      OwnershipKept(s, steps[0].0, steps[0].1);
      DataKept(s, steps[0].0, steps[0].1);
      AttendedKept(s, steps[0].0, steps[0].1);
      Reachable(Next(s, steps[0].0, steps[0].1), steps[1..], t);
    }
  }

  lemma FromInit(s: State, steps: seq<(nat, Step)>, t: State)
    requires Init(s) && Run(s, steps, t)
    ensures Inv(t)
  {
    hide Run;
    Reachable(s, steps, t);
  }

  // ---- the promises ----

  /** Only the thread between the socket call and the skip knows of bytes that are both accepted and buffered. */
  ghost function Pending(s: State): (n: nat)
    requires Data(s)
    ensures n <= |s.out| && s.appended == s.sent + s.out[n..]
    ensures (forall i | 0 <= i < |s.pc| :: !s.pc[i].Wrote?) ==> n == 0
  {
    if exists i :: 0 <= i < |s.pc| && s.pc[i].Wrote? then
      var i :| 0 <= i < |s.pc| && s.pc[i].Wrote?;
      s.pc[i].n
    else 0
  }

  /** The bytes given to the append steps, in their order. */
  function Written(steps: seq<(nat, Step)>): seq<byte> {
    if steps == [] then [] else (if steps[0].1.Append? then steps[0].1.data else []) + Written(steps[1..])
  }

  /** How many bytes the socket said it took. */
  function Taken(steps: seq<(nat, Step)>): nat {
    if steps == [] then 0 else (if steps[0].1.Accept? then steps[0].1.n else 0) + Taken(steps[1..])
  }

  lemma {:induction false} Recorded(s: State, steps: seq<(nat, Step)>, t: State)
    requires Run(s, steps, t)
    ensures t.appended == s.appended + Written(steps) && |t.sent| == |s.sent| + Taken(steps)
    decreases |steps|
  {
    if steps != [] {
      Recorded(Next(s, steps[0].0, steps[0].1), steps[1..], t);
    }
  }

  /**
   No byte is lost, duplicated or reordered: over every run, with or without errors, the socket got as many of the
   written bytes as it said it took, from the first one on and in the order of the writes, and the rest is in the
   buffer.
   */
  lemma StreamKept(s: State, steps: seq<(nat, Step)>, t: State)
    requires Init(s) && Run(s, steps, t)
    ensures t.appended == Written(steps) && Taken(steps) <= |Written(steps)|
    ensures t.sent == Written(steps)[..Taken(steps)]
    ensures exists n: nat :: n <= |t.out| && Written(steps)[Taken(steps)..] == t.out[n..]
    ensures (forall i | 0 <= i < |t.pc| :: !t.pc[i].Wrote?) ==> t.out == Written(steps)[Taken(steps)..]
  {
    FromInit(s, steps, t);
    Recorded(s, steps, t);
    var n := Pending(t);
    assert t.appended[|t.sent|..] == t.out[n..];
  }

  /** What the socket was handed is what was written next, so that a whole acceptance sends all that was peeked. */
  lemma HandedNext(s: State, steps: seq<(nat, Step)>, t: State, i: nat)
    requires Init(s) && Run(s, steps, t) && i < |t.pc| && t.pc[i].Peeked?
    ensures Taken(steps) <= |Written(steps)| && t.pc[i].bs <= Written(steps)[Taken(steps)..]
  {
    StreamKept(s, steps, t);
    FromInit(s, steps, t);
    hide Owned, Run;
    OnlyWriter(t, i);
  }

  /** At most one thread is between taking the lock's rights and giving them up, and armed implies locked. */
  lemma OneOwner(s: State, steps: seq<(nat, Step)>, t: State, i: nat, j: nat)
    requires Init(s) && Run(s, steps, t) && i < |t.pc| && j < |t.pc|
    ensures Holds(i, t.pc[i]) && Holds(j, t.pc[j]) ==> i == j
    ensures t.armed || Holds(i, t.pc[i]) ==> t.writing
  {
    FromInit(s, steps, t);
    OwnedFacts(t, i);
    if Holds(i, t.pc[i]) && Holds(j, t.pc[j]) { OneWriter(t, i, j); }
  }

  /** When the poller is about to disarm, what it cancels is the arming it was woken by: no one is about to arm. */
  lemma DisarmsOwnArming(s: State, steps: seq<(nat, Step)>, t: State, i: nat)
    requires Init(s) && Run(s, steps, t) && 0 < i < |t.pc|
    ensures t.pc[0].ToDisarm? ==> t.armed && !t.pc[i].ToArm?
    ensures t.pc[i].ToArm? ==> !t.armed && !Holds(0, t.pc[0])
  {
    FromInit(s, steps, t);
    OwnedFacts(t, 0);
    OwnedFacts(t, i);
    if t.pc[i].ToArm? && Holds(0, t.pc[0]) { OneWriter(t, 0, i); }
  }

  ghost predicate Quiet(s: State) {
    forall i | 0 <= i < |s.pc| :: s.pc[i].Idle?
  }

  /** No stranded data: when no thread is in the middle of anything, data left over is attended by the poller. */
  lemma NotStranded(s: State, steps: seq<(nat, Step)>, t: State)
    requires Init(s) && Run(s, steps, t) && Quiet(t)
    ensures t.out != [] ==> t.writing && t.armed
    ensures t.writing == t.armed && t.appended == t.sent + t.out
  {
    FromInit(s, steps, t);
    OwnedFacts(t, 0);
    if t.writing && !t.armed { var i := Holder(Lock(t)); assert false; }
  }

  /** Even while threads are active, data left over is attended unless a thread that holds the lock has failed. */
  lemma SomeoneAttends(s: State, steps: seq<(nat, Step)>, t: State)
    requires Init(s) && Run(s, steps, t) && t.out != []
    ensures t.armed || exists i :: 0 <= i < |t.pc| && (WillTry(t.pc[i]) || Holds(i, t.pc[i]))
  {
    FromInit(s, steps, t);
    if !t.armed {
      if t.writing {
        var i := Holder(Lock(t));
      } else {
        var i :| 0 <= i < |t.pc| && WillTry(t.pc[i]);
      }
    }
  }

  // ---- after a failure ----

  ghost predicate SomeBroken(s: State) {
    exists i :: 0 <= i < |s.pc| && s.pc[i].Broken?
  }

  function Failures(steps: seq<(nat, Step)>): nat {
    if steps == [] then 0 else (if steps[0].1.Fail? then 1 else 0) + Failures(steps[1..])
  }

  lemma BrokenNext(s: State, i: nat, a: Step)
    requires Ownership(s) && Enabled(s, i, a)
    ensures if a.Fail? then !SomeBroken(s) && SomeBroken(Next(s, i, a)) else SomeBroken(Next(s, i, a)) == SomeBroken(s)
  {
    hide Owned;
    var t := Next(s, i, a);
    if a.Fail? {
      forall j | 0 <= j < |s.pc| ensures !s.pc[j].Broken? {
        if s.pc[j].Broken? { OneWriter(s, i, j); }
      }
      assert t.pc[i].Broken?;
    } else {
      assert !s.pc[i].Broken? && !t.pc[i].Broken?;
      if SomeBroken(s) {
        var j :| 0 <= j < |s.pc| && s.pc[j].Broken?;
        assert t.pc[j].Broken?;
      }
      if SomeBroken(t) {
        var j :| 0 <= j < |t.pc| && t.pc[j].Broken?;
        assert s.pc[j].Broken?;
      }
    }
  }

  lemma {:induction false} BrokenRun(s: State, steps: seq<(nat, Step)>, t: State)
    requires Ownership(s) && Run(s, steps, t)
    ensures Failures(steps) == (if SomeBroken(t) && !SomeBroken(s) then 1 else 0) && (SomeBroken(s) ==> SomeBroken(t))
    decreases |steps|
  {
    if steps != [] {
      OwnershipKept(s, steps[0].0, steps[0].1);
      BrokenNext(s, steps[0].0, steps[0].1);
      hide SomeBroken, Ownership;
      BrokenRun(Next(s, steps[0].0, steps[0].1), steps[1..], t);
    }
  }

  /**
   A thread that gives up with an error leaves the lock taken for good: it happens once at most, and no other thread
   acts for the lock from then on.
   */
  lemma FailsOnce(s: State, steps: seq<(nat, Step)>, t: State, i: nat)
    requires Init(s) && Run(s, steps, t) && i < |t.pc|
    ensures Failures(steps) <= 1 && (Failures(steps) == 1 <==> SomeBroken(t))
    ensures Failures(steps) == 1 ==> t.writing && (RoleOf(i, t.pc[i]).Free? || t.pc[i].Broken?)
  {
    FromInit(s, steps, t);
    assert Ownership(s) by { FromInit(s, [], s); }
    BrokenRun(s, steps, t);
    hide Run, Owned;
    if Failures(steps) == 1 {
      var j :| 0 <= j < |t.pc| && t.pc[j].Broken?;
      OwnedFacts(t, j);
      if !RoleOf(i, t.pc[i]).Free? { OneWriter(t, i, j); }
    }
  }

  // ---- one call that nobody interrupts ----

  /** What the socket does with what it is handed. */
  datatype Socket = Takes(n: nat) | Blocks

  /** The steps are all of one thread. */
  ghost predicate Own(i: nat, steps: seq<(nat, Step)>) {
    forall x | x in steps :: x.0 == i
  }

  function At(s: State, i: nat, p: Pc): State
    requires i < |s.pc|
  {
    s.(pc := s.pc[i := p])
  }

  /** The first n bytes of the buffer are with the socket. */
  function Passed(s: State, n: nat): State
    requires n <= |s.out|
  {
    s.(sent := s.sent + s.out[..n], out := s.out[n..])
  }

  lemma Then(i: nat, s: State, steps: seq<(nat, Step)>, t: State, a: Step) returns (more: seq<(nat, Step)>, u: State)
    requires Run(s, steps, t) && Own(i, steps) && Enabled(t, i, a)
    ensures u == Next(t, i, a) && Run(s, more, u) && Own(i, more)
  {
    u, more := Next(t, i, a), steps + [(i, a)];
    ThenRuns(s, steps, t, i, a);
  }

  lemma {:induction false} ThenRuns(s: State, steps: seq<(nat, Step)>, t: State, i: nat, a: Step)
    requires Run(s, steps, t) && Enabled(t, i, a)
    ensures Run(s, steps + [(i, a)], Next(t, i, a))
    decreases |steps|
  {
    if steps == [] {
      assert (steps + [(i, a)])[1..] == [] && Run(Next(t, i, a), [], Next(t, i, a));
    } else {
      assert (steps + [(i, a)])[1..] == steps[1..] + [(i, a)];
      ThenRuns(Next(s, steps[0].0, steps[0].1), steps[1..], t, i, a);
    }
  }

  lemma {:induction false} Join(i: nat, s: State, xs: seq<(nat, Step)>, t: State, ys: seq<(nat, Step)>, u: State)
      returns (steps: seq<(nat, Step)>, v: State)
    requires Run(s, xs, t) && Run(t, ys, u) && Own(i, xs) && Own(i, ys)
    ensures v == u && Run(s, steps, v) && Own(i, steps) && steps == xs + ys
    decreases |xs|
  {
    steps, v := xs + ys, u;
    if xs == [] {
      assert steps == ys;
    } else {
      assert steps[1..] == xs[1..] + ys && xs[0] in xs && forall x | x in xs[1..] :: x in xs;
      var _, _ := Join(i, Next(s, xs[0].0, xs[0].1), xs[1..], t, ys, u);
    }
  }

  /** A thread that unlocked looks again: it arms exactly when there is data and the lock is still free. */
  lemma RecheckAlone(s: State, i: nat) returns (steps: seq<(nat, Step)>, t: State)
    requires i < |s.pc| && s.pc[i].Recheck?
    ensures Run(s, steps, t) && Own(i, steps)
    ensures t == if s.out == [] || s.writing then At(s, i, Idle) else At(s, i, Idle).(writing := true, armed := true)
  {
    assert Run(s, [], s);
    hide Run;
    steps, t := Then(i, s, [], s, Look);
    if s.out != [] {
      steps, t := Then(i, s, steps, t, TryAgain);
      if !s.writing { steps, t := Then(i, s, steps, t, Arm); }
    }
  }

  /** A notify arms write interest exactly when the lock is free. */
  lemma NotifyAlone(s: State, i: nat) returns (steps: seq<(nat, Step)>, t: State)
    requires i < |s.pc| && s.pc[i].Appended?
    ensures Run(s, steps, t) && Own(i, steps)
    ensures t == if s.writing then At(s, i, Idle) else At(s, i, Idle).(writing := true, armed := true)
  {
    assert Run(s, [], s);
    hide Run;
    steps, t := Then(i, s, [], s, TryNotify);
    if !s.writing { steps, t := Then(i, s, steps, t, Arm); }
  }

  /** A thread with the lock hands the whole buffer to the socket, which takes some of it. */
  lemma WriteAlone(s: State, i: nat, n: nat) returns (steps: seq<(nat, Step)>, t: State)
    requires i < |s.pc| && s.pc[i].Locked? && n <= |s.out|
    ensures Run(s, steps, t) && Own(i, steps) && t == At(Passed(s, n), i, Skipped)
  {
    assert Run(s, [], s);
    hide Run;
    steps, t := Then(i, s, [], s, Peek(|s.out|));
    assert s.out[..|s.out|] == s.out;
    steps, t := Then(i, s, steps, t, Accept(n));
    steps, t := Then(i, s, steps, t, Skip);
  }

  /** Nothing is left: the lock is free again. */
  lemma UnlockAlone(s: State, i: nat, xs: seq<(nat, Step)>, t: State) returns (steps: seq<(nat, Step)>, u: State)
    requires Run(s, xs, t) && Own(i, xs) && i < |t.pc| && t.pc[i].ToUnlock? && t.out == []
    ensures Run(s, steps, u) && Own(i, steps) && u == At(t, i, Idle).(writing := false)
  {
    hide Run;
    steps, u := Then(i, s, xs, t, Unlock);
    steps, u := Then(i, s, steps, u, Look);
  }

  /** One attempt to write, by the poller or by a thread with the lock. */
  lemma SendAlone(i: nat, s: State, xs: seq<(nat, Step)>, t: State, how: Socket)
      returns (steps: seq<(nat, Step)>, u: State)
    requires Run(s, xs, t) && Own(i, xs) && i < |t.pc| && t.pc[i].Locked? && (how.Takes? ==> how.n <= |t.out|)
    ensures Run(s, steps, u) && Own(i, steps)
    ensures u == if how == Takes(|t.out|) then At(Passed(t, |t.out|), i, if i == 0 then ToDisarm else ToUnlock)
                 else At(if how.Takes? then Passed(t, how.n) else t, i, if i == 0 then Idle else ToArm)
  {
    hide Run;
    match how
    case Blocks =>
      steps, u := Then(i, s, xs, t, Peek(|t.out|));
      steps, u := Then(i, s, steps, u, WouldBlock);
    case Takes(n) =>
      var more, v := WriteAlone(t, i, n);
      steps, u := Join(i, s, xs, t, more, v);
      steps, u := Then(i, s, steps, u, Check);
  }

  /**
   A flush does nothing when the lock is taken. Otherwise what the socket takes is sent; if that is all, the lock is
   free afterwards, and if not, or if the socket blocks, write interest is armed.
   */
  lemma FlushAlone(s: State, i: nat, how: Socket) returns (steps: seq<(nat, Step)>, t: State)
    requires 0 < i < |s.pc| && s.pc[i].Appended? && (how.Takes? ==> how.n <= |s.out|)
    ensures Run(s, steps, t) && Own(i, steps)
    ensures t == if s.writing then At(s, i, Idle)
                 else if how == Takes(|s.out|) then At(Passed(s, |s.out|), i, Idle)
                 else At(if how.Takes? then Passed(s, how.n) else s, i, Idle).(writing := true, armed := true)
  {
    assert Run(s, [], s);
    hide Run;
    steps, t := Then(i, s, [], s, TryFlush);
    if !s.writing {
      steps, t := SendAlone(i, s, steps, t, how);
      if how == Takes(|s.out|) {
        steps, t := UnlockAlone(s, i, steps, t);
        assert t.pc == s.pc[i := Idle];
      } else {
        steps, t := Then(i, s, steps, t, Arm);
        assert t.pc == s.pc[i := Idle];
      }
    }
  }

  /**
   The write callback sends what the socket takes. It stays armed and keeps the lock unless that is all; then it
   disarms and frees the lock.
   */
  lemma CallbackAlone(s: State, how: Socket) returns (steps: seq<(nat, Step)>, t: State)
    requires |s.pc| > 0 && s.pc[0].Idle? && s.armed && (how.Takes? ==> how.n <= |s.out|)
    ensures Run(s, steps, t) && Own(0, steps)
    ensures t == if how == Takes(|s.out|) then Passed(s, |s.out|).(writing := false, armed := false)
                 else if how.Takes? then Passed(s, how.n) else s
  {
    assert Run(s, [], s);
    hide Run;
    steps, t := Then(0, s, [], s, Wake);
    steps, t := SendAlone(0, s, steps, t, how);
    if how == Takes(|s.out|) {
      steps, t := Then(0, s, steps, t, Disarm);
      steps, t := UnlockAlone(s, 0, steps, t);
    }
    assert t.pc == s.pc;
  }

  /** From a quiet state one callback with a socket that takes everything empties the buffer and frees the lock. */
  lemma CallbackDrains(s: State, steps: seq<(nat, Step)>, t: State) returns (more: seq<(nat, Step)>, u: State)
    requires Init(s) && Run(s, steps, t) && Quiet(t) && t.out != []
    ensures Run(t, more, u) && Quiet(u) && u.out == [] && u.sent == u.appended == t.appended && !u.writing && !u.armed
  {
    NotStranded(s, steps, t);
    FromInit(s, steps, t);
    hide Run;
    more, u := CallbackAlone(t, Takes(|t.out|));
  }
}
