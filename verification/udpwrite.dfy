/**
 The UDP write protocol (udpconn.go). A packet is sent directly when the `writing` lock is free and writes are not
 postponed; otherwise, or when the socket would block, it is queued and the poller sends the queue in batches. Any
 number of API threads run against one poller thread, thread 0.
 */
module UdpWrite {
  import opened Bytes
  import opened PacketQueue
  import opened WriteToken

  /** How a direct send ended. */
  datatype Outcome = Done | Blocked | Hard

  datatype Pc =
    | Idle
    | Direct(p: Packet)                   // holds the lock, about to call the socket
    | Returned(p: Packet, how: Outcome)   // about to unlock
    | ToAppend(p: Packet)                 // about to queue the packet
    | Appended                            // queued, about to try the lock
    | Checking                            // has the lock, about to look whether the queue is empty
    | Locked                              // poller: about to peek
    | Peeked(ps: seq<Packet>)             // poller: about to call the kernel
    | Took(n: nat, errno: Errno)          // poller: n packets sent, not yet skipped
    | ToDrop                              // poller: the call failed, about to drop a packet
    | Skipped                             // poller: about to look whether anything is left
    | ToDisarm | ToUnlock | Recheck | Retry | ToArm | Broken(armed: bool)

  datatype State = State(
    appended: seq<Packet>,                // all packets ever queued, in order
    gone: seq<(Packet, Fate)>,            // packets that left the queue, with their fate
    out: seq<Packet>,                     // the queue
    direct: seq<Packet>,                  // packets sent directly
    writing: bool, armed: bool, pc: seq<Pc>)

  datatype Step =
    | WriteTo(p: Packet, postponed: bool) | SendTo(how: Outcome) | Release | Queue | TryLock | Look
    | Wake | Peek | Kernel(a: Answer) | Skip | Drop | Check | Disarm | Unlock | LookAgain | TryAgain | Arm | Fail

  predicate Enabled(s: State, i: nat, a: Step) {
    && i < |s.pc|
    && match a {
         case WriteTo(p, _) => i > 0 && s.pc[i].Idle? && p != []
         case SendTo(_) => s.pc[i].Direct?
         case Release => s.pc[i].Returned?
         case Queue => s.pc[i].ToAppend?
         case TryLock => s.pc[i].Appended?
         case Look => s.pc[i].Checking?
         case Wake => i == 0 && s.armed && s.pc[i].Idle?
         case Peek => s.pc[i].Locked?
         case Kernel(a) => s.pc[i].Peeked? && a.n <= |s.pc[i].ps|
         case Skip => s.pc[i].Took? && s.pc[i].n <= |s.out|
         case Drop => s.pc[i].ToDrop?
         case Check => s.pc[i].Skipped?
         case Disarm => s.pc[i].ToDisarm?
         case Unlock => s.pc[i].ToUnlock?
         case LookAgain => s.pc[i].Recheck?
         case TryAgain => s.pc[i].Retry?
         case Arm => s.pc[i].ToArm?
         case Fail => s.pc[i].ToArm? || s.pc[i].ToDisarm?
       }
  }

  /** Where a thread goes when it unlocks after a direct send: a hard error returns without looking at the queue. */
  function AfterSend(p: Packet, how: Outcome): Pc {
    match how
    case Done => Recheck
    case Blocked => ToAppend(p)
    case Hard => Idle
  }

  function Marked(ps: seq<Packet>, fate: Fate): (gone: seq<(Packet, Fate)>)
    ensures Names(gone) == ps
  {
    seq(|ps|, i requires 0 <= i < |ps| => (ps[i], fate))
  }

  function Next(s: State, i: nat, a: Step): State
    requires Enabled(s, i, a)
  {
    match a
    case WriteTo(p, postponed) =>
      if postponed || s.writing then s.(pc := s.pc[i := ToAppend(p)]) else s.(writing := true,
        pc := s.pc[i := Direct(p)])
    case SendTo(how) =>
      s.(direct := if how == Done then s.direct + [s.pc[i].p] else s.direct, pc := s.pc[i := Returned(s.pc[i].p, how)])
    case Release => s.(writing := false, pc := s.pc[i := AfterSend(s.pc[i].p, s.pc[i].how)])
    case Queue => s.(appended := s.appended + [s.pc[i].p], out := s.out + [s.pc[i].p], pc := s.pc[i := Appended])
    case TryLock => if s.writing then s.(pc := s.pc[i := Idle]) else s.(writing := true, pc := s.pc[i := Checking])
    case Look => s.(pc := s.pc[i := if s.out != [] then ToArm else ToUnlock])
    case Wake => s.(pc := s.pc[i := Locked])
    case Peek => s.(pc := s.pc[i := if s.out == [] then Skipped else Peeked(s.out[..Offered(|s.out|)])])
    case Kernel(a) =>
      s.(gone := s.gone + Marked(s.pc[i].ps[..a.Taken()], Sent), pc := s.pc[i := Took(a.Taken(), a.errno)])
    case Skip =>
      s.(out := s.out[s.pc[i].n..],
         pc := s.pc[i := match s.pc[i].errno case Success => Skipped case WouldBlock => Idle case Failure => ToDrop])
    case Drop =>
      if s.out == [] then s.(pc := s.pc[i := Skipped])
      else s.(gone := s.gone + Marked(s.out[..1], Dropped), out := s.out[1..], pc := s.pc[i := Skipped])
    case Check => s.(pc := s.pc[i := if s.out != [] then Idle else ToDisarm])
    case Disarm => s.(armed := false, pc := s.pc[i := ToUnlock])
    case Unlock => s.(writing := false, pc := s.pc[i := Recheck])
    case LookAgain => s.(pc := s.pc[i := if s.out != [] then Retry else Idle])
    case TryAgain => if s.writing then s.(pc := s.pc[i := Idle]) else s.(writing := true, pc := s.pc[i := ToArm])
    case Arm => s.(armed := true, pc := s.pc[i := Idle])
    case Fail => s.(pc := s.pc[i := Broken(s.armed)])
  }

  ghost predicate Init(s: State) {
    && s.appended == s.out == s.direct == [] && s.gone == [] && !s.writing && !s.armed
    && |s.pc| > 0 && forall i | 0 <= i < |s.pc| :: s.pc[i].Idle?
  }

  ghost predicate Run(s: State, steps: seq<(nat, Step)>, t: State)
    decreases |steps|
  {
    if steps == [] then s == t else
      Enabled(s, steps[0].0, steps[0].1) && Run(Next(s, steps[0].0, steps[0].1), steps[1..], t)
  }

  // ---- ownership of the lock ----

  function RoleOf(i: nat, p: Pc): Role {
    match p
    case Idle => Free
    case ToAppend(_) => Free
    case Appended => Free
    case Recheck => Free
    case Retry => Free
    case Direct(_) => Held
    case Returned(_, _) => Held
    case Checking => Held
    case ToUnlock => Held
    case ToArm => Held
    case Broken(armed) => if armed then Busy else Held
    case _ => Busy
  }

  function Lock(s: State): Token {
    TokenOf(s.writing, s.armed, s.pc, RoleOf)
  }

  /** The lock has exactly one owner, and the poller does not write. */
  ghost predicate Ownership(s: State) {
    && Owned(Lock(s)) && |s.pc| > 0
    && !s.pc[0].Direct? && !s.pc[0].Returned? && !s.pc[0].ToAppend? && !s.pc[0].Appended? && !s.pc[0].Checking?
  }

  lemma OwnedFacts(s: State, i: nat)
    requires Owned(Lock(s)) && i < |s.pc|
    ensures RoleOf(i, s.pc[i]).Held? ==> s.writing && !s.armed
    ensures RoleOf(i, s.pc[i]).Busy? ==> s.writing && s.armed && i == 0
    ensures s.armed ==> s.writing
  {
    assert Lock(s).roles[i] == RoleOf(i, s.pc[i]);
    assert Lock(s).roles[0] == RoleOf(0, s.pc[0]);
  }

  lemma OwnershipKept(s: State, i: nat, a: Step)
    requires Ownership(s) && Enabled(s, i, a)
    ensures Ownership(Next(s, i, a))
  {
    hide Owned;
    var t := Next(s, i, a);
    OwnedFacts(s, i);
    assert t.pc == s.pc[i := t.pc[i]];
    hide TokenOf;
    StaysOwned(RoleOf, i, s.pc, s.writing, s.armed, t.pc[i], t.writing, t.armed);
  }

  // ---- the queue ----

  /** Packets that left the queue, then packets still queued, are the packets ever queued. */
  ghost predicate Data(s: State) {
    && |s.pc| > 0
    && (s.pc[0].Peeked? ==> s.pc[0].ps <= s.out)
    && (s.pc[0].Took? ==> s.pc[0].n <= |s.out| && s.appended == Names(s.gone) + s.out[s.pc[0].n..])
    && (!s.pc[0].Took? ==> s.appended == Names(s.gone) + s.out)
  }

  lemma NamesConcat(a: seq<(Packet, Fate)>, b: seq<(Packet, Fate)>)
    ensures Names(a + b) == Names(a) + Names(b)
  {}

  lemma DataSent(s: State, i: nat, answer: Answer)
    requires i == 0 && Data(s) && Enabled(s, i, Kernel(answer))
    ensures Data(Next(s, i, Kernel(answer)))
  {
    hide Names, Marked;
    var n := answer.Taken();
    var ps := s.pc[0].ps[..n];
    NamesConcat(s.gone, Marked(ps, Sent));
    SplitFront(Names(s.gone), s.pc[0].ps, s.out, n);
  }

  lemma DataDropped(s: State, i: nat)
    requires i == 0 && Data(s) && Enabled(s, i, Drop)
    ensures Data(Next(s, i, Drop))
  {
    hide Names;
    if s.out != [] {
      NamesConcat(s.gone, Marked(s.out[..1], Dropped));
      assert s.out[..1] + s.out[1..] == s.out;
    }
  }

  lemma DataQueued(s: State, i: nat)
    requires i != 0 && Data(s) && Enabled(s, i, Queue)
    ensures Data(Next(s, i, Queue))
  {
    hide Names;
    if s.pc[0].Took? {
      assert (s.out + [s.pc[i].p])[s.pc[0].n..] == s.out[s.pc[0].n..] + [s.pc[i].p];
    }
  }

  lemma DataKept(s: State, i: nat, a: Step)
    requires Ownership(s) && Data(s) && Enabled(s, i, a)
    ensures Data(Next(s, i, a))
  {
    hide Names, Owned;
    OwnedFacts(s, i);
    match a
    case Kernel(answer) => DataSent(s, i, answer);
    case Drop => DataDropped(s, i);
    case Queue => DataQueued(s, i);
    case _ =>
  }

  lemma {:induction false} Reachable(s: State, steps: seq<(nat, Step)>, t: State)
    requires Ownership(s) && Data(s) && Run(s, steps, t)
    ensures Ownership(t) && Data(t)
    decreases |steps|
  {
    if steps != [] {
      OwnershipKept(s, steps[0].0, steps[0].1);
      DataKept(s, steps[0].0, steps[0].1);
      Reachable(Next(s, steps[0].0, steps[0].1), steps[1..], t);
    }
  }

  lemma StartsOwned(s: State)
    requires Init(s)
    ensures Ownership(s) && Data(s)
  {}

  lemma MarkedIsPop(l: Ledger, n: nat, fate: Fate)
    requires n <= |l.queue|
    ensures l.Pop(n, fate) == Ledger(l.gone + Marked(l.queue[..n], fate), l.queue[n..])
  {}

  /** The state after the kernel has answered and the taken packets were skipped. */
  lemma AfterKernel(s: State, a: Answer) returns (steps: seq<(nat, Step)>, t: State)
    requires |s.pc| > 0 && s.pc[0].Locked? && s.out != [] && a.n <= Offered(|s.out|)
    ensures Run(s, steps, t) && Own(0, steps)
    ensures Ledger(t.gone, t.out) == Ledger(s.gone, s.out).Pop(a.Taken(), Sent)
    ensures var pc := match a.errno case Success => Skipped case WouldBlock => Idle case Failure => ToDrop;
      t == At(s, 0, pc).(gone := t.gone, out := t.out)
  {
    hide Run;
    steps := Nothing(s);
    steps, t := Alone(0, s, steps, s, Peek);
    assert t.pc[0].ps[..a.Taken()] == s.out[..a.Taken()];
    steps, t := Alone(0, s, steps, t, Kernel(a));
    steps, t := Alone(0, s, steps, t, Skip);
    MarkedIsPop(Ledger(s.gone, s.out), a.Taken(), Sent);
  }

  /** A callback with no append in between does to the queue what one sendMMsg call does. */
  lemma CallbackIsSend(s: State, a: Answer) returns (steps: seq<(nat, Step)>, t: State)
    requires |s.pc| > 0 && s.pc[0].Locked? && s.out != [] && a.n <= Offered(|s.out|)
    ensures Run(s, steps, t) && Own(0, steps) && Ledger(t.gone, t.out) == Ledger(s.gone, s.out).Send(a)
    ensures t == At(s, 0, if a.errno == WouldBlock then Idle else Skipped).(gone := t.gone, out := t.out)
  {
    hide Run;
    steps, t := AfterKernel(s, a);
    if a.errno == Failure {
      if t.out != [] { MarkedIsPop(Ledger(t.gone, t.out), 1, Dropped); }
      steps, t := Alone(0, s, steps, t, Drop);
    }
  }

  /** Over every run, whatever the socket answers, each queued packet is sent once, dropped once, or still queued. */
  lemma QueueKept(s: State, steps: seq<(nat, Step)>, t: State)
    requires Init(s) && Run(s, steps, t)
    ensures Names(t.gone) <= t.appended
    ensures |t.pc| > 0 && (!t.pc[0].Took? ==> t.appended == Names(t.gone) + t.out)
  {
    StartsOwned(s);
    hide Run;
    Reachable(s, steps, t);
  }

  // ---- where packets go ----

  /** The packets given to WriteTo, in order. */
  function Written(steps: seq<(nat, Step)>): seq<Packet> {
    if steps == [] then [] else Given(steps[0].1) + Written(steps[1..])
  }

  function Given(a: Step): seq<Packet> {
    if a.WriteTo? then [a.p] else []
  }

  /** The packets whose direct send ended this way, in order. */
  ghost function Ended(s: State, steps: seq<(nat, Step)>, t: State, how: Outcome): seq<Packet>
    requires Run(s, steps, t)
    decreases |steps|
  {
    if steps == [] then []
    else EndedBy(s, steps[0].0, steps[0].1, how) + Ended(Next(s, steps[0].0, steps[0].1), steps[1..], t, how)
  }

  function EndedBy(s: State, i: nat, a: Step, how: Outcome): seq<Packet>
    requires Enabled(s, i, a)
  {
    if a == SendTo(how) then [s.pc[i].p] else []
  }

  /** The packet a thread has and has not brought anywhere yet. */
  function InHand(p: Pc): seq<Packet> {
    match p
    case Direct(q) => [q]
    case Returned(q, how) => if how == Blocked then [q] else []
    case ToAppend(q) => [q]
    case _ => []
  }

  function InHands(pc: seq<Pc>): seq<Packet> {
    if pc == [] then [] else InHand(pc[0]) + InHands(pc[1..])
  }

  /** How often a packet occurs. */
  function Times(ps: seq<Packet>, q: Packet): nat {
    multiset(ps)[q]
  }

  lemma TimesBoth(a: seq<Packet>, b: seq<Packet>, q: Packet)
    ensures Times(a + b, q) == Times(a, q) + Times(b, q)
  {}

  lemma TimesOne(p: Packet, q: Packet)
    ensures Times([p], q) == (if p == q then 1 else 0) && Times([], q) == 0
  {}

  lemma {:induction false} HandsSet(pc: seq<Pc>, i: nat, p: Pc, q: Packet)
    requires i < |pc|
    ensures Times(InHands(pc[i := p]), q) + Times(InHand(pc[i]), q) == Times(InHands(pc), q) + Times(InHand(p), q)
  {
    hide InHand, Times;
    var pc' := pc[i := p];
    TimesBoth(InHand(pc[0]), InHands(pc[1..]), q);
    TimesBoth(InHand(pc'[0]), InHands(pc'[1..]), q);
    if i == 0 {
      assert pc'[1..] == pc[1..];
    } else {
      assert pc'[1..] == pc[1..][i - 1 := p];
      HandsSet(pc[1..], i - 1, p, q);
    }
  }

  lemma {:induction false} NoHands(pc: seq<Pc>)
    requires forall i | 0 <= i < |pc| :: pc[i].Idle?
    ensures InHands(pc) == []
  {
    if pc != [] { NoHands(pc[1..]); }
  }

  /** How often a packet was sent directly, queued, or is in a thread's hands. */
  ghost function Accounted(s: State, q: Packet): nat {
    Times(s.direct, q) + Times(s.appended, q) + Times(InHands(s.pc), q)
  }

  function QueuedBy(s: State, i: nat, a: Step): seq<Packet>
    requires Enabled(s, i, a)
  {
    if a.Queue? then [s.pc[i].p] else []
  }

  lemma Records(s: State, i: nat, a: Step)
    requires Enabled(s, i, a)
    ensures var t := Next(s, i, a);
      && |t.pc| == |s.pc| && t.pc == s.pc[i := t.pc[i]]
      && t.direct == s.direct + EndedBy(s, i, a, Done) && t.appended == s.appended + QueuedBy(s, i, a)
  {}

  /** A thread's step either gives it a packet, or brings its packet somewhere, or leaves it in its hands. */
  lemma HandNext(s: State, i: nat, a: Step)
    requires Enabled(s, i, a)
    ensures var h, h' := InHand(s.pc[i]), InHand(Next(s, i, a).pc[i]);
      if a.WriteTo? then h == [] && h' == [a.p]
      else if a == SendTo(Done) || a == SendTo(Hard) || a.Queue? then h == [s.pc[i].p] && h' == []
      else h == h'
  {}

  lemma AccountedNext(s: State, i: nat, a: Step, q: Packet)
    requires Enabled(s, i, a)
    ensures Accounted(Next(s, i, a), q) + Times(EndedBy(s, i, a, Hard), q) == Accounted(s, q) + Times(Given(a), q)
  {
    Records(s, i, a);
    HandNext(s, i, a);
    var t := Next(s, i, a);
    hide Next, InHand, InHands, Times;
    HandsSet(s.pc, i, t.pc[i], q);
    TimesBoth(s.direct, EndedBy(s, i, a, Done), q);
    TimesBoth(s.appended, QueuedBy(s, i, a), q);
    if a.WriteTo? { TimesOne(a.p, q); }
    if a.SendTo? || a.Queue? { TimesOne(s.pc[i].p, q); }
    TimesOne([], q);
  }

  lemma RunParts(s: State, steps: seq<(nat, Step)>, t: State)
    requires Run(s, steps, t) && steps != []
    ensures Enabled(s, steps[0].0, steps[0].1) && Run(Next(s, steps[0].0, steps[0].1), steps[1..], t)
  {}

  lemma {:induction false} AccountedRun(s: State, steps: seq<(nat, Step)>, t: State, q: Packet)
    requires Run(s, steps, t)
    ensures Accounted(t, q) + Times(Ended(s, steps, t, Hard), q) == Accounted(s, q) + Times(Written(steps), q)
    decreases |steps|
  {
    if steps != [] {
      hide Run, Next, Accounted, EndedBy, Given, Enabled, Times;
      RunParts(s, steps, t);
      var i, a := steps[0].0, steps[0].1;
      var u := Next(s, i, a);
      AccountedNext(s, i, a, q);
      AccountedRun(u, steps[1..], t, q);
      TimesBoth(EndedBy(s, i, a, Hard), Ended(u, steps[1..], t, Hard), q);
      TimesBoth(Given(a), Written(steps[1..]), q);
    }
  }

  lemma {:induction false} DirectRun(s: State, steps: seq<(nat, Step)>, t: State)
    requires Run(s, steps, t)
    ensures t.direct == s.direct + Ended(s, steps, t, Done)
    decreases |steps|
  {
    if steps != [] {
      hide Next, EndedBy, Enabled;
      RunParts(s, steps, t);
      var i, a := steps[0].0, steps[0].1;
      Records(s, i, a);
      DirectRun(Next(s, i, a), steps[1..], t);
    }
  }

  /**
   Over every run, each packet given to WriteTo was sent directly, or queued, or its direct send failed hard, or it is
   still in its thread's hands; packets count as sent directly exactly when the socket said so.
   */
  lemma PacketsKept(s: State, steps: seq<(nat, Step)>, t: State)
    requires Init(s) && Run(s, steps, t)
    ensures multiset(Written(steps))
         == multiset(t.direct + t.appended + Ended(s, steps, t, Hard) + InHands(t.pc))
    ensures t.direct == Ended(s, steps, t, Done)
    ensures Quiet(t) ==> InHands(t.pc) == []
  {
    hide Run, Ended, Written, Times;
    DirectRun(s, steps, t);
    if Quiet(t) { NoHands(t.pc); }
    NoHands(s.pc);
    var h, all := Ended(s, steps, t, Hard), t.direct + t.appended + Ended(s, steps, t, Hard) + InHands(t.pc);
    forall q: Packet ensures multiset(Written(steps))[q] == multiset(all)[q] {
      AccountedRun(s, steps, t, q);
      TimesOne([], q);
      TimesBoth(t.direct + t.appended + h, InHands(t.pc), q);
      TimesBoth(t.direct + t.appended, h, q);
      TimesBoth(t.direct, t.appended, q);
      TimesIs(Written(steps), q);
      TimesIs(all, q);
    }
    assert multiset(Written(steps)) == multiset(all);
  }

  lemma TimesIs(ps: seq<Packet>, q: Packet)
    ensures Times(ps, q) == multiset(ps)[q]
  {}

  // ---- after a failure ----

  ghost predicate SomeBroken(s: State) {
    exists i :: 0 <= i < |s.pc| && s.pc[i].Broken?
  }

  function Failures(steps: seq<(nat, Step)>): nat {
    if steps == [] then 0 else (if steps[0].1.Fail? then 1 else 0) + Failures(steps[1..])
  }

  /** No two threads act for the lock. */
  lemma OneWriter(s: State, i: nat, j: nat)
    requires Owned(Lock(s)) && i < |s.pc| && j < |s.pc|
    requires !RoleOf(i, s.pc[i]).Free? && !RoleOf(j, s.pc[j]).Free?
    ensures i == j
  {
    assert !Lock(s).roles[i].Free? && !Lock(s).roles[j].Free?;
  }

  lemma BrokenNext(s: State, i: nat, a: Step)
    requires Ownership(s) && Enabled(s, i, a)
    ensures if a.Fail? then !SomeBroken(s) && SomeBroken(Next(s, i, a)) else SomeBroken(Next(s, i, a)) == SomeBroken(s)
  {
    hide Owned;
    var t := Next(s, i, a);
    if a.Fail? {
      forall j | 0 <= j < |s.pc| ensures !s.pc[j].Broken? {
        if s.pc[j].Broken? { OneWriter(s, i, j); }
      }
      assert t.pc[i].Broken?;
    } else {
      assert !s.pc[i].Broken? && !t.pc[i].Broken?;
      if SomeBroken(s) {
        var j :| 0 <= j < |s.pc| && s.pc[j].Broken?;
        assert t.pc[j].Broken?;
      }
      if SomeBroken(t) {
        var j :| 0 <= j < |t.pc| && t.pc[j].Broken?;
        assert s.pc[j].Broken?;
      }
    }
  }

  lemma {:induction false} BrokenRun(s: State, steps: seq<(nat, Step)>, t: State)
    requires Ownership(s) && Run(s, steps, t)
    ensures Failures(steps) == (if SomeBroken(t) && !SomeBroken(s) then 1 else 0) && (SomeBroken(s) ==> SomeBroken(t))
    decreases |steps|
  {
    if steps != [] {
      OwnershipKept(s, steps[0].0, steps[0].1);
      BrokenNext(s, steps[0].0, steps[0].1);
      hide SomeBroken, Ownership;
      BrokenRun(Next(s, steps[0].0, steps[0].1), steps[1..], t);
    }
  }

  /**
   A thread that gives up with an error leaves the lock taken for good: it happens once at most, and no other thread
   acts for the lock from then on.
   */
  lemma FailsOnce(s: State, steps: seq<(nat, Step)>, t: State, i: nat)
    requires Init(s) && Run(s, steps, t) && i < |t.pc|
    ensures Failures(steps) <= 1 && (Failures(steps) == 1 <==> SomeBroken(t))
    ensures Failures(steps) == 1 ==> t.writing && (RoleOf(i, t.pc[i]).Free? || t.pc[i].Broken?)
  {
    StartsOwned(s);
    Reachable(s, steps, t);
    BrokenRun(s, steps, t);
    hide Run, Owned;
    if Failures(steps) == 1 {
      var j :| 0 <= j < |t.pc| && t.pc[j].Broken?;
      OwnedFacts(t, j);
      if !RoleOf(i, t.pc[i]).Free? { OneWriter(t, i, j); }
    }
  }

  // ---- one call that nobody interrupts ----

  /** The steps are all of one thread. */
  ghost predicate Own(i: nat, steps: seq<(nat, Step)>) {
    forall x | x in steps :: x.0 == i
  }

  function At(s: State, i: nat, p: Pc): State
    requires i < |s.pc|
  {
    s.(pc := s.pc[i := p])
  }

  lemma Alone(i: nat, s: State, steps: seq<(nat, Step)>, t: State, a: Step) returns (more: seq<(nat, Step)>, u: State)
    requires Run(s, steps, t) && Own(i, steps) && Enabled(t, i, a)
    ensures u == Next(t, i, a) && Run(s, more, u) && Own(i, more)
  {
    u, more := Then(s, steps, t, i, a);
  }

  /** A thread that unlocked looks again: it arms exactly when packets are queued and the lock is still free. */
  lemma RecheckAlone(i: nat, s: State, xs: seq<(nat, Step)>, t: State) returns (steps: seq<(nat, Step)>, u: State)
    requires Run(s, xs, t) && Own(i, xs) && i < |t.pc| && t.pc[i].Recheck?
    ensures Run(s, steps, u) && Own(i, steps)
    ensures u == if t.out == [] || t.writing then At(t, i, Idle) else At(t, i, Idle).(writing := true, armed := true)
  {
    hide Run;
    steps, u := Alone(i, s, xs, t, LookAgain);
    if t.out != [] {
      steps, u := Alone(i, s, steps, u, TryAgain);
      if !t.writing { steps, u := Alone(i, s, steps, u, Arm); }
    }
  }

  /** The packet is queued, and if the lock is free write interest is armed. */
  function Enqueued(s: State, p: Packet): State {
    s.(appended := s.appended + [p], out := s.out + [p], writing := true, armed := s.armed || !s.writing)
  }

  lemma QueueAlone(i: nat, s: State, xs: seq<(nat, Step)>, t: State) returns (steps: seq<(nat, Step)>, u: State)
    requires Run(s, xs, t) && Own(i, xs) && i < |t.pc| && t.pc[i].ToAppend?
    ensures Run(s, steps, u) && Own(i, steps) && u == At(Enqueued(t, t.pc[i].p), i, Idle)
  {
    hide Run;
    steps, u := Alone(i, s, xs, t, Queue);
    steps, u := Alone(i, s, steps, u, TryLock);
    if !t.writing {
      steps, u := Alone(i, s, steps, u, Step.Look);
      steps, u := Alone(i, s, steps, u, Arm);
    }
  }

  /**
   WriteTo queues the packet when writes are postponed, the lock is taken or the socket would block. Otherwise it sends
   it directly; a success then arms write interest if packets are queued, and a hard error leaves all as it was.
   */
  lemma WriteToAlone(s: State, i: nat, p: Packet, postponed: bool, how: Outcome)
      returns (steps: seq<(nat, Step)>, t: State)
    requires 0 < i < |s.pc| && s.pc[i].Idle? && p != []
    ensures Run(s, steps, t) && Own(i, steps)
    ensures t == if postponed || s.writing || how == Blocked then Enqueued(s, p)
                 else if how == Hard then s
                 else s.(direct := s.direct + [p], writing := s.out != [], armed := s.armed || s.out != [])
  {
    steps := Nothing(s);
    hide Run;
    steps, t := Alone(i, s, steps, s, WriteTo(p, postponed));
    if t.pc[i].Direct? {
      steps, t := Alone(i, s, steps, t, SendTo(how));
      steps, t := Alone(i, s, steps, t, Release);
    }
    if t.pc[i].ToAppend? {
      steps, t := QueueAlone(i, s, steps, t);
    } else if t.pc[i].Recheck? {
      steps, t := RecheckAlone(i, s, steps, t);
    }
    assert t.pc == s.pc;
  }

  /** What is left after a batch send that did not block: the lock is freed exactly when the queue is empty. */
  lemma SettleAlone(s: State, xs: seq<(nat, Step)>, t: State) returns (steps: seq<(nat, Step)>, u: State)
    requires Run(s, xs, t) && Own(0, xs) && |t.pc| > 0 && t.pc[0].Skipped?
    ensures Run(s, steps, u) && Own(0, steps)
    ensures u == if t.out != [] then At(t, 0, Idle) else At(t, 0, Idle).(writing := false, armed := false)
  {
    hide Run;
    steps, u := Alone(0, s, xs, t, Check);
    if t.out == [] {
      steps, u := Alone(0, s, steps, u, Disarm);
      steps, u := Alone(0, s, steps, u, Unlock);
      steps, u := Alone(0, s, steps, u, LookAgain);
    }
  }

  /**
   The write callback does to the queue what one batch send does. It stays armed and keeps the lock unless the kernel
   did not block and the queue is empty; then it disarms and frees the lock.
   */
  lemma CallbackAlone(s: State, a: Answer) returns (steps: seq<(nat, Step)>, t: State)
    requires |s.pc| > 0 && s.pc[0].Idle? && s.armed && s.out != [] && a.n <= Offered(|s.out|)
    ensures Run(s, steps, t) && Own(0, steps)
    ensures var l := Ledger(s.gone, s.out).Send(a);
      t == if a.errno != WouldBlock && l.queue == []
           then s.(gone := l.gone, out := [], writing := false, armed := false)
           else s.(gone := l.gone, out := l.queue)
  {
    steps := Nothing(s);
    hide Run;
    steps, t := Alone(0, s, steps, s, Wake);
    var more, u := CallbackIsSend(t, a);
    steps := Join(s, steps, t, more, u);
    t := u;
    if a.errno != WouldBlock {
      steps, t := SettleAlone(s, steps, t);
    }
    assert t.pc == s.pc;
  }

  // ---- stranded packets ----

  predicate WillTry(p: Pc) {
    p.ToAppend? || p.Appended? || p.Recheck? || p.Retry?
  }

  /** With packets queued and a free lock, some thread is still going to try the lock. */
  ghost predicate Attended(s: State) {
    s.out != [] && !s.writing ==> exists i :: 0 <= i < |s.pc| && WillTry(s.pc[i])
  }

  /** The unlock after a direct send that failed hard, with packets queued and no other thread to look at them. */
  ghost predicate Abandons(s: State, i: nat, a: Step) {
    && i < |s.pc| && a.Release? && s.pc[i].Returned? && s.pc[i].how == Hard && s.out != []
    && forall j | 0 <= j < |s.pc| :: !WillTry(s.pc[j])
  }

  /** One step leaves queued packets unattended exactly when it is such an unlock. */
  lemma AttendedKept(s: State, i: nat, a: Step)
    requires Ownership(s) && Attended(s) && Enabled(s, i, a)
    ensures Attended(Next(s, i, a)) <==> !Abandons(s, i, a)
  {
    hide Owned;
    OwnedFacts(s, i);
    var t := Next(s, i, a);
    if a.Release? && s.pc[i].how == Hard {
      if j :| 0 <= j < |s.pc| && WillTry(s.pc[j]) {
        assert WillTry(t.pc[j]);
      } else {
        forall j | 0 <= j < |t.pc| ensures !WillTry(t.pc[j]) {
          assert j != i ==> t.pc[j] == s.pc[j];
        }
      }
    } else {
      assert t.out != [] && !t.writing ==> WillTry(t.pc[i]);
    }
  }

  ghost predicate NoHardErrors(steps: seq<(nat, Step)>) {
    forall x | x in steps :: x.1 != SendTo(Hard)
  }

  ghost predicate NoneFailed(s: State) {
    forall i | 0 <= i < |s.pc| && s.pc[i].Returned? :: s.pc[i].how != Hard
  }

  lemma {:induction false} AttendedRun(s: State, steps: seq<(nat, Step)>, t: State)
    requires Ownership(s) && Attended(s) && NoneFailed(s) && NoHardErrors(steps) && Run(s, steps, t)
    ensures Attended(t)
    decreases |steps|
  {
    if steps != [] {
      var i, a := steps[0].0, steps[0].1;
      assert steps[0] in steps;
      OwnershipKept(s, i, a);
      AttendedKept(s, i, a);
      AttendedRun(Next(s, i, a), steps[1..], t);
    }
  }

  ghost predicate Quiet(s: State) {
    forall i | 0 <= i < |s.pc| :: s.pc[i].Idle?
  }

  /** Packets are queued, and nothing will send them: no thread is at work and write interest is not armed. */
  ghost predicate Stranded(s: State) {
    Quiet(s) && s.out != [] && !s.armed
  }

  /** In runs whose direct sends succeed or would block, no packet is stranded. */
  lemma NotStranded(s: State, steps: seq<(nat, Step)>, t: State)
    requires Init(s) && Run(s, steps, t) && NoHardErrors(steps)
    ensures !Stranded(t)
    ensures Quiet(t) && t.out != [] ==> t.writing && t.armed
  {
    StartsOwned(s);
    AttendedRun(s, steps, t);
    Reachable(s, steps, t);
    OwnedFacts(t, 0);
    hide Run;
    if Quiet(t) && t.writing && !t.armed {
      var i := Holder(Lock(t));
      assert false;
    }
  }

  /** Positions of the poller and of thread 1; the other threads are idle. */
  function Positions(threads: nat, poller: Pc, writer: Pc): (pc: seq<Pc>)
    requires threads >= 1
    ensures |pc| == 1 + threads && pc[0] == poller && pc[1] == writer
  {
    seq(1 + threads, i => if i == 0 then poller else if i == 1 then writer else Idle)
  }

  /** Thread 1 puts a packet into the queue. */
  lemma QueueOne(threads: nat, p: Packet, s: State, poller: Pc) returns (steps: seq<(nat, Step)>, t: State)
    requires threads >= 1 && p != [] && s.out == [] && s.pc == Positions(threads, poller, Idle)
    ensures Run(s, steps, t) && t.out == [p] && t.armed == s.armed && t.writing == s.writing
    ensures t.pc == Positions(threads, poller, Appended)
  {
    hide Run;
    steps := Nothing(s);
    t, steps := Then(s, steps, s, 1, WriteTo(p, true));
    t, steps := Then(s, steps, t, 1, Queue);
    assert t.pc == Positions(threads, poller, Appended);
  }

  /** Thread 1 queues a packet and arms. */
  lemma QueueAndArm(threads: nat, p: Packet) returns (s: State, steps: seq<(nat, Step)>, t: State)
    requires threads >= 1 && p != []
    ensures Init(s) && |s.pc| == 1 + threads && Run(s, steps, t)
    ensures t.out == [p] && t.armed && t.writing && t.pc == Positions(threads, Idle, Idle)
  {
    s := State([], [], [], [], false, false, Positions(threads, Idle, Idle));
    hide Run;
    steps, t := QueueOne(threads, p, s, Idle);
    t, steps := Then(s, steps, t, 1, TryLock);
    t, steps := Then(s, steps, t, 1, Look);
    t, steps := Then(s, steps, t, 1, Arm);
    assert t.pc == Positions(threads, Idle, Idle);
  }

  /** The poller sends the packet. */
  lemma SendQueued(threads: nat, p: Packet, s: State) returns (steps: seq<(nat, Step)>, t: State)
    requires threads >= 1 && s.out == [p] && s.armed && s.writing && s.pc == Positions(threads, Idle, Idle)
    ensures Run(s, steps, t) && t.out == [] && t.armed && t.writing && t.pc == Positions(threads, Skipped, Idle)
  {
    hide Run;
    t := s;
    steps := Nothing(s);
    t, steps := Then(s, steps, t, 0, Wake);
    t, steps := Then(s, steps, t, 0, Peek);
    assert t.pc[0] == Peeked([p]);
    t, steps := Then(s, steps, t, 0, Kernel(Answer(1, Success)));
    t, steps := Then(s, steps, t, 0, Skip);
    assert t.pc == Positions(threads, Skipped, Idle);
  }

  /** The poller finds nothing left and disarms. */
  lemma FindNothing(threads: nat, s: State) returns (steps: seq<(nat, Step)>, t: State)
    requires threads >= 1 && s.out == [] && s.writing && s.pc == Positions(threads, Skipped, Idle)
    ensures Run(s, steps, t) && t.out == [] && !t.armed && t.writing && t.pc == Positions(threads, ToUnlock, Idle)
  {
    hide Run;
    steps := Nothing(s);
    t, steps := Then(s, steps, s, 0, Check);
    t, steps := Then(s, steps, t, 0, Disarm);
    assert t.pc == Positions(threads, ToUnlock, Idle);
  }

  /** Thread 1 queues a packet before the poller unlocks, and does not get the lock. */
  lemma QueueBehind(threads: nat, p: Packet, s: State) returns (steps: seq<(nat, Step)>, t: State)
    requires threads >= 1 && p != [] && s.out == [] && s.writing && !s.armed
    requires s.pc == Positions(threads, ToUnlock, Idle)
    ensures Run(s, steps, t) && t.out == [p] && !t.armed && !t.writing && t.pc == Positions(threads, Recheck, Idle)
  {
    hide Run;
    steps, t := QueueOne(threads, p, s, ToUnlock);
    t, steps := Then(s, steps, t, 1, TryLock);
    t, steps := Then(s, steps, t, 0, Unlock);
    assert t.pc == Positions(threads, Recheck, Idle);
  }

  /** Thread 1's next direct send takes the lock from the poller's recheck, fails hard, and leaves. */
  lemma FailAndLeave(threads: nat, p: Packet, s: State) returns (steps: seq<(nat, Step)>, t: State)
    requires threads >= 1 && p != [] && s.out == [p] && !s.writing && !s.armed
    requires s.pc == Positions(threads, Recheck, Idle)
    ensures Run(s, steps, t) && t.out == [p] && !t.armed && t.pc == Positions(threads, Idle, Idle)
  {
    hide Run;
    t := s;
    steps := Nothing(s);
    t, steps := Then(s, steps, t, 1, WriteTo(p, false));
    t, steps := Then(s, steps, t, 0, LookAgain);
    t, steps := Then(s, steps, t, 0, TryAgain);
    t, steps := Then(s, steps, t, 1, SendTo(Hard));
    t, steps := Then(s, steps, t, 1, Release);
    assert t.pc == Positions(threads, Idle, Idle);
  }

  /** With any positive number of API threads, one is enough, a direct send that fails hard can strand a packet. */
  lemma HardErrorStrands(threads: nat, p: Packet) returns (s: State, steps: seq<(nat, Step)>, t: State)
    requires threads >= 1 && p != []
    ensures Init(s) && |s.pc| == 1 + threads && Run(s, steps, t) && Stranded(t)
  {
    hide Run, Init;
    var xs, t1, t2, t3, t4;
    s, steps, t1 := QueueAndArm(threads, p);
    xs, t2 := SendQueued(threads, p, t1);
    steps := Join(s, steps, t1, xs, t2);
    xs, t3 := FindNothing(threads, t2);
    steps := Join(s, steps, t2, xs, t3);
    xs, t4 := QueueBehind(threads, p, t3);
    steps := Join(s, steps, t3, xs, t4);
    xs, t := FailAndLeave(threads, p, t4);
    steps := Join(s, steps, t4, xs, t);
  }

  /** No run of a connection strands a packet if and only if the socket never fails a direct send hard. */
  lemma StrandsIffHardErrors(threads: nat, hard: bool)
    requires threads >= 1
    ensures (forall s, steps, t :: Init(s) && |s.pc| == 1 + threads && Run(s, steps, t) && (hard || NoHardErrors(steps))
               ==> !Stranded(t))
            <==> !hard
  {
    hide Run, Init, Stranded;
    if hard {
      var s, steps, t := HardErrorStrands(threads, [0]);
    } else {
      forall s, steps, t | Init(s) && |s.pc| == 1 + threads && Run(s, steps, t) && NoHardErrors(steps)
        ensures !Stranded(t)
      {
        NotStranded(s, steps, t);
      }
    }
  }

  lemma Nothing(s: State) returns (steps: seq<(nat, Step)>)
    ensures Run(s, steps, s) && steps == []
  {
    steps := [];
  }

  lemma Then(s: State, steps: seq<(nat, Step)>, t: State, i: nat, a: Step) returns (u: State, more: seq<(nat, Step)>)
    requires Run(s, steps, t) && Enabled(t, i, a)
    ensures u == Next(t, i, a) && Run(s, more, u) && more == steps + [(i, a)]
  {
    u := Next(t, i, a);
    more := Join(s, steps, t, [(i, a)], u);
  }

  lemma {:induction false} Join(s: State, xs: seq<(nat, Step)>, t: State, ys: seq<(nat, Step)>, u: State)
      returns (steps: seq<(nat, Step)>)
    requires Run(s, xs, t) && Run(t, ys, u)
    ensures steps == xs + ys && Run(s, steps, u)
    decreases |xs|
  {
    steps := xs + ys;
    if xs == [] {
      assert steps == ys;
    } else {
      assert steps[1..] == xs[1..] + ys;
      var _ := Join(Next(s, xs[0].0, xs[0].1), xs[1..], t, ys, u);
    }
  }
}
