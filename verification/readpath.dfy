/**
 Reading from a TCP connection in blocking mode with a handler set (tcpconn.go). The poller fills inBuffer, offers a
 token on the one-slot readTrigger, and hands the `reading` lock to a handler task; tasks drain, unlock and look
 again; readers take turns in apiRead and park on readTrigger until enough bytes are there. Any number of tasks and
 readers interleave. Thread 0 is the poller, the others are task slots.
 */
module ReadPath {
  datatype Pc =
    | Idle
    | Filled            // poller: data is in, token not offered yet
    | Offered           // poller: about to try `reading`
    | ToSpawn           // poller: has `reading`, about to start a task
    | Counting          // task: about to look at Len
    | Asking            // task: about to look at IsActive
    | Handling          // task: in the user's handler
    | ToUnlock          // task: nothing left
    | Recheck | Retry   // task: unlocked; look again, try the lock again
    | ToFail            // task: handler failed, about to unlock
    | ToClose           // about to close the connection after an error

  datatype Reader =
    | Away
    | Looking(n: int)   // in apiRead, about to compare LenRead with n
    | Short(n: int)     // too little there, about to look at IsActive
    | Parked(n: int)    // waiting on readTrigger
    | Expired(n: int)   // the read timer fired, about to look once more
    | Ready(n: int)     // enough there

  datatype State = State(
    len: nat,                  // unread bytes in inBuffer
    trigger: bool,             // a token is in readTrigger
    triggerClosed: bool,
    active: bool,
    reading: bool,             // the `reading` lock word
    pc: seq<Pc>,
    readers: seq<Reader>)

  /** Steps of the poller and of tasks; Len reads as zero once apiCtrl is closed. */
  datatype Step =
    | Fill(n: nat) | Offer | TryReading | Spawn(k: nat) | SpawnFails
    | Count(seen: nat) | Ask | HandlerReturns(ok: bool) | Unlock | Again(seen: nat) | TryAgain | FailUnlock | Fail

  datatype ReaderStep = Enter(n: int) | Look | AskActive | Receive | Expire | LookOnce | Take(m: nat)

  /** CallClose marks the connection closed; CloseTrigger follows once the poller is out of its callback for good. */
  datatype Action = Serve(i: nat, step: Step) | Read(i: nat, read: ReaderStep) | CallClose | CloseTrigger

  predicate Sees(s: State, seen: nat) {
    seen == s.len || (!s.active && seen == 0)
  }

  predicate InCallback(p: Pc) {
    p.Filled? || p.Offered? || p.ToSpawn?
  }

  predicate Serves(s: State, i: nat, a: Step) {
    && i < |s.pc|
    && match a {
         case Fill(_) => i == 0 && s.pc[i].Idle? && !s.triggerClosed
         case Offer => s.pc[i].Filled?
         case TryReading => s.pc[i].Offered?
         case Spawn(k) => s.pc[i].ToSpawn? && 0 < k < |s.pc| && s.pc[k].Idle?
         case SpawnFails => s.pc[i].ToSpawn?
         case Count(seen) => s.pc[i].Counting? && Sees(s, seen)
         case Ask => s.pc[i].Asking?
         case HandlerReturns(_) => s.pc[i].Handling?
         case Unlock => s.pc[i].ToUnlock?
         case Again(seen) => s.pc[i].Recheck? && Sees(s, seen)
         case TryAgain => s.pc[i].Retry?
         case FailUnlock => s.pc[i].ToFail?
         case Fail => s.pc[i].ToClose?
       }
  }

  function Served(s: State, i: nat, a: Step): State
    requires Serves(s, i, a)
  {
    match a
    case Fill(n) => s.(len := s.len + n, pc := s.pc[i := Filled])
    case Offer => s.(trigger := true, pc := s.pc[i := Offered])
    case TryReading => if s.reading then s.(pc := s.pc[i := Idle]) else s.(reading := true, pc := s.pc[i := ToSpawn])
    case Spawn(k) => s.(pc := s.pc[i := Idle][k := Counting])
    case SpawnFails => s.(pc := s.pc[i := ToClose])
    case Count(seen) => s.(pc := s.pc[i := if seen > 0 then Asking else ToUnlock])
    case Ask => s.(pc := s.pc[i := if s.active then Handling else ToUnlock])
    case HandlerReturns(ok) => s.(pc := s.pc[i := if ok then Counting else ToFail])
    case Unlock => s.(reading := false, pc := s.pc[i := Recheck])
    case Again(seen) => s.(pc := s.pc[i := if seen > 0 then Retry else Idle])
    case TryAgain => if s.reading then s.(pc := s.pc[i := Idle]) else s.(reading := true, pc := s.pc[i := Counting])
    case FailUnlock => s.(reading := false, pc := s.pc[i := ToClose])
    case Fail => s.(active := false, pc := s.pc[i := Idle])
  }

  ghost predicate Reads(s: State, i: nat, a: ReaderStep) {
    && i < |s.readers|
    && var r := s.readers[i];
       match a {
         case Enter(_) => r.Away? && s.active && forall i' | 0 <= i' < |s.readers| :: s.readers[i'].Away?
         case Look => r.Looking?
         case AskActive => r.Short?
         case Receive => r.Parked? && (s.trigger || s.triggerClosed)
         case Expire => r.Parked?
         case LookOnce => r.Expired?
         case Take(m) => r.Ready? && m <= s.len
       }
  }

  function ReadNext(s: State, i: nat, a: ReaderStep): State
    requires Reads(s, i, a)
  {
    var r := s.readers[i];
    match a
    case Enter(n) => s.(readers := s.readers[i := Looking(n)])
    case Look => s.(readers := s.readers[i := if s.len >= r.n then Ready(r.n) else Short(r.n)])
    case AskActive => s.(readers := s.readers[i := if s.active then Parked(r.n) else Away])
    case Receive => s.(trigger := false, readers := s.readers[i := Looking(r.n)])
    case Expire => s.(readers := s.readers[i := Expired(r.n)])
    case LookOnce => s.(readers := s.readers[i := if s.len >= r.n then Ready(r.n) else Away])
    case Take(m) => s.(len := s.len - m, readers := s.readers[i := Away])
  }

  ghost predicate Enabled(s: State, a: Action) {
    match a
    case Serve(i, step) => Serves(s, i, step)
    case Read(i, step) => Reads(s, i, step)
    case CallClose => true
    case CloseTrigger => !s.active && |s.pc| > 0 && !InCallback(s.pc[0])
  }

  function Next(s: State, a: Action): State
    requires Enabled(s, a)
  {
    match a
    case Serve(i, step) => Served(s, i, step)
    case Read(i, step) => ReadNext(s, i, step)
    case CallClose => s.(active := false)
    case CloseTrigger => s.(triggerClosed := true)
  }

  ghost predicate Init(s: State) {
    && s == State(0, false, false, true, false, s.pc, s.readers) && |s.pc| > 0
    && (forall i | 0 <= i < |s.pc| :: s.pc[i].Idle?)
    && (forall i | 0 <= i < |s.readers| :: s.readers[i].Away?)
  }

  ghost predicate Run(s: State, steps: seq<Action>, t: State)
    decreases |steps|
  {
    if steps == [] then s == t else Enabled(s, steps[0]) && Run(Next(s, steps[0]), steps[1..], t)
  }

  // ---- dispatch ----

  predicate Task(p: Pc) {
    p.Counting? || p.Asking? || p.Handling? || p.ToUnlock? || p.ToFail?
  }

  /** The thread acts as owner of `reading`. */
  predicate Holds(i: nat, p: Pc) {
    Task(p) || p.ToSpawn? || (i == 0 && p.ToClose?)
  }

  /** The thread will still try the lock, or close the connection. */
  predicate WillTry(i: nat, p: Pc) {
    p.Filled? || p.Offered? || p.Recheck? || p.Retry? || (i != 0 && p.ToClose?)
  }

  ghost predicate OneHolder(s: State) {
    && |s.pc| > 0
    && (forall i | 0 < i < |s.pc| :: !InCallback(s.pc[i]))
    && (Holds(0, s.pc[0]) ==> s.pc[0].ToSpawn? || s.pc[0].ToClose?) && !s.pc[0].Recheck? && !s.pc[0].Retry?
    && (forall i, j | 0 <= i < |s.pc| && 0 <= j < |s.pc| && Holds(i, s.pc[i]) && Holds(j, s.pc[j]) :: i == j)
    && (forall i | 0 <= i < |s.pc| && Holds(i, s.pc[i]) :: s.reading)
    && (s.active && s.reading ==> exists i :: 0 <= i < |s.pc| && Holds(i, s.pc[i]))
  }

  ghost predicate Attended(s: State) {
    s.active && s.len > 0 && !s.reading ==> exists i :: 0 <= i < |s.pc| && WillTry(i, s.pc[i])
  }

  // ---- waking readers ----

  ghost predicate Turns(s: State) {
    forall i, j | 0 <= i < |s.readers| && 0 <= j < |s.readers| && !s.readers[i].Away? && !s.readers[j].Away? :: i == j
  }

  predicate Waits(r: Reader) {
    r.Short? || r.Parked?
  }

  /** A waiting reader whose bytes are there has a token to receive, or the poller is about to offer one. */
  ghost predicate Awake(s: State) {
    && |s.pc| > 0
    && (forall i | 0 <= i < |s.readers| && Waits(s.readers[i]) && s.readers[i].n <= s.len ::
          s.trigger || s.pc[0].Filled? || s.triggerClosed)
    && (forall i | 0 <= i < |s.readers| && s.readers[i].Ready? :: s.readers[i].n <= s.len)
  }

  ghost predicate Inv(s: State) {
    OneHolder(s) && Attended(s) && Turns(s) && Awake(s)
  }

  /** A step in which only thread i moves: it takes the lock, keeps it, gives it up, or never had it. */
  lemma HolderMoves(s: State, t: State, i: nat)
    requires OneHolder(s) && i < |s.pc| == |t.pc| && t.pc == s.pc[i := t.pc[i]] && (t.active ==> s.active)
    requires i > 0 ==> !InCallback(t.pc[i])
    requires i == 0 ==> !Task(t.pc[0]) && !t.pc[0].Recheck? && !t.pc[0].Retry?
    requires Holds(i, t.pc[i]) ==> t.reading && (Holds(i, s.pc[i]) || !s.reading)
    requires !Holds(i, t.pc[i]) ==> if Holds(i, s.pc[i]) then !t.reading || !t.active else t.reading == s.reading
    ensures OneHolder(t)
  {
    if t.active && t.reading && !Holds(i, t.pc[i]) {
      var j :| 0 <= j < |s.pc| && Holds(j, s.pc[j]);
      assert Holds(j, t.pc[j]);
    }
  }

  /** The poller hands the lock to a task. */
  lemma HolderSpawns(s: State, i: nat, k: nat)
    requires OneHolder(s) && Serves(s, i, Spawn(k))
    ensures OneHolder(Served(s, i, Spawn(k)))
  {
    var t := Served(s, i, Spawn(k));
    assert i == 0 && Holds(0, s.pc[0]);
    forall j | 0 <= j < |t.pc| && Holds(j, t.pc[j]) ensures j == k {}
    assert Holds(k, t.pc[k]);
  }

  lemma ServedHolder(s: State, i: nat, a: Step)
    requires OneHolder(s) && Serves(s, i, a)
    ensures OneHolder(Served(s, i, a))
  {
    if a.Spawn? {
      HolderSpawns(s, i, a.k);
    } else {
      assert Holds(i, s.pc[i]) ==> s.reading;
      HolderMoves(s, Served(s, i, a), i);
    }
  }

  lemma ServedAttended(s: State, i: nat, a: Step)
    requires OneHolder(s) && Attended(s) && Serves(s, i, a)
    ensures Attended(Served(s, i, a))
  {
    var t := Served(s, i, a);
    assert t.active && t.len > 0 && !t.reading ==> WillTry(i, t.pc[i]);
  }

  lemma ServedAwake(s: State, i: nat, a: Step)
    requires OneHolder(s) && Awake(s) && Serves(s, i, a)
    ensures Awake(Served(s, i, a))
  {
  }

  /** Readers leave dispatch alone, except that they lower len; closing only lowers active. */
  lemma DispatchSame(s: State, t: State)
    requires OneHolder(s) && Attended(s) && t.pc == s.pc && t.reading == s.reading && t.len <= s.len &&
      (t.active ==> s.active)
    ensures OneHolder(t) && Attended(t)
  {}

  lemma ReadKept(s: State, i: nat, a: ReaderStep)
    requires Inv(s) && Reads(s, i, a)
    ensures Inv(ReadNext(s, i, a))
  {
    var t := ReadNext(s, i, a);
    DispatchSame(s, t);
    hide OneHolder, Attended;
    forall j | 0 <= j < |t.readers| && !t.readers[j].Away? ensures j == i {}
  }

  lemma InvKept(s: State, a: Action)
    requires Inv(s) && Enabled(s, a)
    ensures Inv(Next(s, a))
  {
    match a
    case Serve(i, step) =>
      hide OneHolder, Attended, Awake, Serves, Served;
      ServedHolder(s, i, step);
      ServedAttended(s, i, step);
      ServedAwake(s, i, step);
      ServedTurns(s, i, step);
    case Read(i, step) => ReadKept(s, i, step);
    case CallClose => DispatchSame(s, Next(s, a));
    case CloseTrigger => DispatchSame(s, Next(s, a));
  }

  lemma ServedTurns(s: State, i: nat, a: Step)
    requires Turns(s) && Serves(s, i, a)
    ensures Turns(Served(s, i, a))
  {}

  lemma {:induction false} Reachable(s: State, steps: seq<Action>, t: State)
    requires Inv(s) && Run(s, steps, t)
    ensures Inv(t)
    decreases |steps|
  {
    hide Inv, Enabled, Next;
    if steps != [] {
      InvKept(s, steps[0]);
      Reachable(Next(s, steps[0]), steps[1..], t);
    }
  }

  lemma FromInit(s: State, steps: seq<Action>, t: State)
    requires Init(s) && Run(s, steps, t)
    ensures Inv(t)
  {
    hide Run;
    Reachable(s, steps, t);
  }

  // ---- the promises ----

  /** At most one handler task runs at a time, and it holds the lock. */
  lemma OneTask(s: State, steps: seq<Action>, t: State, i: nat, j: nat)
    requires Init(s) && Run(s, steps, t) && i < |t.pc| && j < |t.pc|
    ensures Task(t.pc[i]) && Task(t.pc[j]) ==> i == j && t.reading
  {
    hide Run, Init;
    FromInit(s, steps, t);
    assert Task(t.pc[i]) ==> Holds(i, t.pc[i]);
    assert Task(t.pc[j]) ==> Holds(j, t.pc[j]);
  }

  /** No step is in flight: the poller is out of its callback, and every task is idle or has the lock. */
  ghost predicate Settled(s: State) {
    |s.pc| > 0 && s.pc[0].Idle? && forall i | 0 < i < |s.pc| :: s.pc[i].Idle? || Task(s.pc[i])
  }

  /** On an active connection, unread data is always some task's business once nothing is in flight. */
  lemma DataIsHandled(s: State, steps: seq<Action>, t: State) returns (i: nat)
    requires Init(s) && Run(s, steps, t) && Settled(t) && t.active && t.len > 0
    ensures t.reading && 0 < i < |t.pc| && Task(t.pc[i])
  {
    hide Run, Init;
    FromInit(s, steps, t);
    assert forall j | 0 <= j < |t.pc| :: !WillTry(j, t.pc[j]);
    i :| 0 <= i < |t.pc| && Holds(i, t.pc[i]);
  }

  /** No lost wake-up: a reader parked on an empty trigger, with no token on its way, has too few bytes. */
  lemma ParkedIsShort(s: State, steps: seq<Action>, t: State, i: nat)
    requires Init(s) && Run(s, steps, t) && i < |t.readers| && t.readers[i].Parked?
    requires |t.pc| > 0 && !t.trigger && !t.triggerClosed && !t.pc[0].Filled?
    ensures t.len < t.readers[i].n
  {
    hide Run, Init;
    FromInit(s, steps, t);
    assert Waits(t.readers[i]);
  }

  /** A reader that was told its bytes are there finds them, and readers take turns. */
  lemma ReadyIsEnough(s: State, steps: seq<Action>, t: State, i: nat, j: nat)
    requires Init(s) && Run(s, steps, t) && i < |t.readers| && j < |t.readers|
    ensures t.readers[i].Ready? ==> t.readers[i].n <= t.len
    ensures !t.readers[i].Away? && !t.readers[j].Away? ==> i == j
  {
    hide Run, Init;
    FromInit(s, steps, t);
  }

  // ---- what the steps say ----

  /** The bytes the poller put in, and those readers took. */
  function PutIn(steps: seq<Action>): nat {
    if steps == [] then 0 else PutBy(steps[0]) + PutIn(steps[1..])
  }

  function TakenOut(steps: seq<Action>): nat {
    if steps == [] then 0 else TakenBy(steps[0]) + TakenOut(steps[1..])
  }

  function PutBy(a: Action): nat {
    if a.Serve? && a.step.Fill? then a.step.n else 0
  }

  function TakenBy(a: Action): nat {
    if a.Read? && a.read.Take? then a.read.m else 0
  }

  /** The step closes the connection, after an error or as asked. */
  predicate Closes(a: Action) {
    a.CallClose? || (a.Serve? && a.step.Fail?)
  }

  lemma StepFacts(s: State, a: Action)
    requires Enabled(s, a)
    ensures var t := Next(s, a);
      && t.len + TakenBy(a) == s.len + PutBy(a) && |t.pc| == |s.pc|
      && (t.active <==> s.active && !Closes(a)) && (t.triggerClosed <==> s.triggerClosed || a.CloseTrigger?)
  {
    match a
    case Serve(i, step) => ServedFacts(s, i, step);
    case Read(i, step) => ReadFacts(s, i, step);
    case CallClose =>
    case CloseTrigger =>
  }

  lemma ServedFacts(s: State, i: nat, a: Step)
    requires Serves(s, i, a)
    ensures var t := Served(s, i, a);
      && t.len == s.len + (if a.Fill? then a.n else 0) && |t.pc| == |s.pc|
      && (t.active <==> s.active && !a.Fail?) && t.triggerClosed == s.triggerClosed
  {}

  lemma ReadFacts(s: State, i: nat, a: ReaderStep)
    requires Reads(s, i, a)
    ensures var t := ReadNext(s, i, a);
      && t.len + (if a.Take? then a.m else 0) == s.len && t.pc == s.pc
      && t.active == s.active && t.triggerClosed == s.triggerClosed
  {}

  lemma RunParts(s: State, steps: seq<Action>, t: State)
    requires Run(s, steps, t) && steps != []
    ensures Enabled(s, steps[0]) && Run(Next(s, steps[0]), steps[1..], t)
  {
    hide Enabled, Next;
  }

  lemma {:induction false} LenRun(s: State, steps: seq<Action>, t: State)
    requires Run(s, steps, t)
    ensures t.len + TakenOut(steps) == s.len + PutIn(steps)
    decreases |steps|
  {
    if steps != [] {
      hide Enabled, Next, PutBy, TakenBy, Run;
      RunParts(s, steps, t);
      StepFacts(s, steps[0]);
      LenRun(Next(s, steps[0]), steps[1..], t);
    }
  }

  lemma {:induction false} ActiveRun(s: State, steps: seq<Action>, t: State)
    requires Run(s, steps, t)
    ensures t.active <==> s.active && forall a | a in steps :: !Closes(a)
    ensures t.triggerClosed <==> s.triggerClosed || CloseTrigger in steps
    decreases |steps|
  {
    if steps != [] {
      hide Enabled, Next, Closes, Run;
      RunParts(s, steps, t);
      StepFacts(s, steps[0]);
      ActiveRun(Next(s, steps[0]), steps[1..], t);
      assert steps[0] in steps && (forall a | a in steps[1..] :: a in steps);
      assert forall a | a in steps :: a == steps[0] || a in steps[1..];
    }
  }

  /** The tokens offered, and those received. */
  function OfferedTokens(steps: seq<Action>): nat {
    if steps == [] then 0
    else (if steps[0].Serve? && steps[0].step.Offer? then 1 else 0) + OfferedTokens(steps[1..])
  }

  ghost function ReceivedTokens(s: State, steps: seq<Action>, t: State): nat
    requires Run(s, steps, t)
    decreases |steps|
  {
    if steps == [] then 0
    else
      (if steps[0].Read? && steps[0].read.Receive? && s.trigger then 1 else 0)
      + ReceivedTokens(Next(s, steps[0]), steps[1..], t)
  }

  lemma {:induction false} TokensRun(s: State, steps: seq<Action>, t: State)
    requires Run(s, steps, t)
    ensures ReceivedTokens(s, steps, t) + (if t.trigger then 1 else 0)
         <= OfferedTokens(steps) + (if s.trigger then 1 else 0)
    decreases |steps|
  {
    if steps != [] { TokensRun(Next(s, steps[0]), steps[1..], t); }
  }

  /**
   Over every run, what is unread is what the poller put in less what readers took; the connection is active exactly
   if no step closed it; and every token that woke a reader was offered, and wakes one reader once.
   */
  lemma Accounts(s: State, steps: seq<Action>, t: State)
    requires Init(s) && Run(s, steps, t)
    ensures TakenOut(steps) <= PutIn(steps) && t.len == PutIn(steps) - TakenOut(steps)
    ensures t.active <==> forall a | a in steps :: !Closes(a)
    ensures t.triggerClosed <==> CloseTrigger in steps
    ensures ReceivedTokens(s, steps, t) + (if t.trigger then 1 else 0) <= OfferedTokens(steps)
  {
    LenRun(s, steps, t);
    ActiveRun(s, steps, t);
    TokensRun(s, steps, t);
  }

  /** The last step of a task's own, and the state it found. */
  datatype Act = None | Some(found: State, step: Step)

  ghost function LastAct(s: State, steps: seq<Action>, t: State, i: nat): Act
    requires Run(s, steps, t)
    decreases |steps|
  {
    if steps == [] then None
    else
      var later := LastAct(Next(s, steps[0]), steps[1..], t, i);
      if later.Some? then later
      else if steps[0].Serve? && steps[0].i == i then Some(s, steps[0].step)
      else None
  }

  /** Why a task is about to unlock: what it saw or what its handler said. */
  predicate MayLeave(p: Pc, act: Act) {
    && (p.ToUnlock? ==> act.Some? && (act.step == Count(0) || (act.step.Ask? && !act.found.active)))
    && (p.ToFail? ==> act.Some? && act.step == HandlerReturns(false))
  }

  lemma {:induction false} LastActRun(s: State, steps: seq<Action>, t: State, i: nat)
    requires Run(s, steps, t) && i < |s.pc|
    ensures |t.pc| == |s.pc|
    ensures LastAct(s, steps, t, i).None? ==> t.pc[i] == s.pc[i] || t.pc[i].Counting?
    ensures LastAct(s, steps, t, i).Some? ==> MayLeave(t.pc[i], LastAct(s, steps, t, i))
    decreases |steps|
  {
    if steps != [] {
      hide Next, Enabled, MayLeave, Serves, Served, Run;
      RunParts(s, steps, t);
      StepFacts(s, steps[0]);
      OthersLeave(s, steps[0], i);
      LastActRun(Next(s, steps[0]), steps[1..], t, i);
    }
  }

  /** A step of a thread's own leaves it where it may be; no other step moves it, but to start it. */
  lemma OthersLeave(s: State, a: Action, i: nat)
    requires Enabled(s, a) && i < |s.pc| == |Next(s, a).pc|
    ensures var p := Next(s, a).pc[i];
      if a.Serve? && a.i == i then MayLeave(p, Some(s, a.step)) && MayLeave(Counting, Some(s, a.step))
      else p == s.pc[i] || p.Counting?
  {
    match a
    case Serve(k, step) => ServedLeaves(s, k, step, i);
    case Read(k, step) => ReadFacts(s, k, step);
    case CallClose =>
    case CloseTrigger =>
  }

  lemma ServedLeaves(s: State, k: nat, a: Step, i: nat)
    requires Serves(s, k, a) && i < |s.pc|
    ensures var t := Served(s, k, a);
      && |t.pc| == |s.pc|
      && if k == i then MayLeave(t.pc[i], Some(s, a)) else t.pc[i] == s.pc[i] || t.pc[i].Counting?
  {}

  /**
   Over every run, a task gives the lock up only after it saw a length of zero or an inactive connection, or its
   handler failed.
   */
  lemma LeavesWhenDone(s: State, steps: seq<Action>, t: State, i: nat)
    requires Init(s) && Run(s, steps, t) && i < |t.pc| && (t.pc[i].ToUnlock? || t.pc[i].ToFail?)
    ensures var act := LastAct(s, steps, t, i);
      && act.Some?
      && (t.pc[i].ToUnlock? ==> act.step == Count(0) || (act.step.Ask? && !act.found.active))
      && (t.pc[i].ToFail? ==> act.step == HandlerReturns(false))
  {
    SameSize(s, steps, t);
    LastActRun(s, steps, t, i);
  }

  lemma {:induction false} SameSize(s: State, steps: seq<Action>, t: State)
    requires Run(s, steps, t)
    ensures |t.pc| == |s.pc|
    decreases |steps|
  {
    if steps != [] {
      hide Enabled, Next, Run;
      RunParts(s, steps, t);
      StepFacts(s, steps[0]);
      SameSize(Next(s, steps[0]), steps[1..], t);
    }
  }

  // ---- what a thread does that nobody interrupts ----

  ghost predicate ByThread(i: nat, steps: seq<Action>) {
    forall a | a in steps :: a.Serve? && a.i == i
  }

  ghost predicate ByReader(i: nat, steps: seq<Action>) {
    forall a | a in steps :: a.Read? && a.i == i
  }

  lemma {:induction false} Extends(s: State, steps: seq<Action>, t: State, a: Action)
    requires Run(s, steps, t) && Enabled(t, a)
    ensures Run(s, steps + [a], Next(t, a))
    decreases |steps|
  {
    if steps == [] {
      assert (steps + [a])[1..] == [] && Run(Next(t, a), [], Next(t, a));
    } else {
      assert (steps + [a])[1..] == steps[1..] + [a];
      hide Next, Enabled;
      Extends(Next(s, steps[0]), steps[1..], t, a);
    }
  }

  lemma Serving(i: nat, s: State, steps: seq<Action>, t: State, a: Step) returns (more: seq<Action>, u: State)
    requires Run(s, steps, t) && ByThread(i, steps) && Serves(t, i, a)
    ensures u == Served(t, i, a) && Run(s, more, u) && ByThread(i, more)
  {
    u, more := Served(t, i, a), steps + [Serve(i, a)];
    Extends(s, steps, t, Serve(i, a));
  }

  lemma Reading(i: nat, s: State, steps: seq<Action>, t: State, a: ReaderStep) returns (more: seq<Action>, u: State)
    requires Run(s, steps, t) && ByReader(i, steps) && Reads(t, i, a)
    ensures u == ReadNext(t, i, a) && Run(s, more, u) && ByReader(i, more)
  {
    u, more := ReadNext(t, i, a), steps + [Read(i, a)];
    Extends(s, steps, t, Read(i, a));
  }

  lemma Nothing(s: State)
    ensures Run(s, [], s)
  {}

  function At(s: State, i: nat, p: Pc): State
    requires i < |s.pc|
  {
    s.(pc := s.pc[i := p])
  }

  /** A task that is counting calls the handler if there is data on an active connection, and else lets the lock go. */
  lemma CountAlone(i: nat, s: State, xs: seq<Action>, t: State) returns (steps: seq<Action>, u: State)
    requires Run(s, xs, t) && ByThread(i, xs) && i < |t.pc| && t.pc[i].Counting?
    ensures Run(s, steps, u) && ByThread(i, steps)
    ensures u == if t.len > 0 && t.active then At(t, i, Handling) else At(t, i, Idle).(reading := false)
  {
    hide Run;
    steps, u := Serving(i, s, xs, t, Count(t.len));
    if t.len > 0 { steps, u := Serving(i, s, steps, u, Ask); }
    if !(t.len > 0 && t.active) { steps, u := UnlockAlone(i, s, steps, u); }
    assert u.pc == t.pc[i := u.pc[i]];
  }

  lemma UnlockAlone(i: nat, s: State, xs: seq<Action>, t: State) returns (steps: seq<Action>, u: State)
    requires Run(s, xs, t) && ByThread(i, xs) && i < |t.pc| && t.pc[i].ToUnlock? && Sees(t, 0)
    ensures Run(s, steps, u) && ByThread(i, steps) && u == At(t, i, Idle).(reading := false)
  {
    hide Run;
    steps, u := Serving(i, s, xs, t, Unlock);
    steps, u := Serving(i, s, steps, u, Again(0));
  }

  /**
   When a handler returns, a failure closes the connection and lets the lock go; otherwise the handler is called again
   if there is data on an active connection, and else the task ends.
   */
  lemma HandlerAlone(s: State, i: nat, ok: bool) returns (steps: seq<Action>, t: State)
    requires i < |s.pc| && s.pc[i].Handling?
    ensures Run(s, steps, t) && ByThread(i, steps)
    ensures t == if !ok then At(s, i, Idle).(reading := false, active := false)
                 else if s.len > 0 && s.active then s else At(s, i, Idle).(reading := false)
  {
    Nothing(s);
    hide Run;
    steps, t := Serving(i, s, [], s, HandlerReturns(ok));
    if ok {
      steps, t := CountAlone(i, s, steps, t);
    } else {
      steps, t := Serving(i, s, steps, t, FailUnlock);
      steps, t := Serving(i, s, steps, t, Fail);
    }
    assert t.pc == s.pc[i := t.pc[i]];
  }

  /** A task that has let the lock go looks again: with data and a free lock it goes on as if it had just begun. */
  lemma RecheckAlone(i: nat, s: State, xs: seq<Action>, t: State) returns (steps: seq<Action>, u: State)
    requires Run(s, xs, t) && ByThread(i, xs) && i < |t.pc| && t.pc[i].Recheck?
    ensures Run(s, steps, u) && ByThread(i, steps)
    ensures u == if t.len > 0 && !t.reading then At(t, i, Counting).(reading := true) else At(t, i, Idle)
  {
    hide Run;
    steps, u := Serving(i, s, xs, t, Again(t.len));
    if t.len > 0 { steps, u := Serving(i, s, steps, u, TryAgain); }
  }

  /**
   From every reachable, settled, active state with unread data, the task that has the lock reaches the handler by its
   own steps, which change nothing else; only a task whose handler has just failed closes the connection instead.
   */
  lemma HandlerRuns(s: State, steps: seq<Action>, t: State) returns (i: nat, more: seq<Action>, u: State)
    requires Init(s) && Run(s, steps, t) && Settled(t) && t.active && t.len > 0
    ensures 0 < i < |t.pc| && Task(t.pc[i]) && t.reading && Run(t, more, u) && ByThread(i, more)
    ensures u == if t.pc[i].ToFail? then At(t, i, Idle).(reading := false, active := false) else At(t, i, Handling)
  {
    i := DataIsHandled(s, steps, t);
    Nothing(t);
    hide Run;
    more, u := [], t;
    match t.pc[i] {
      case Handling => assert u.pc == t.pc[i := Handling];
      case ToFail =>
        more, u := Serving(i, t, more, u, FailUnlock);
        more, u := Serving(i, t, more, u, Fail);
      case Asking => more, u := Serving(i, t, more, u, Ask);
      case Counting => more, u := CountAlone(i, t, more, u);
      case ToUnlock =>
        more, u := Serving(i, t, more, u, Unlock);
        more, u := RecheckAlone(i, t, more, u);
        more, u := CountAlone(i, t, more, u);
    }
    assert u.pc == t.pc[i := u.pc[i]];
  }

  /**
   The read callback adds what came in and leaves a token; it starts a task exactly when nobody has the lock, and
   closes the connection when that fails.
   */
  lemma CallbackAlone(s: State, n: nat, k: nat, spawns: bool) returns (steps: seq<Action>, t: State)
    requires 0 < k < |s.pc| && s.pc[0].Idle? && s.pc[k].Idle? && !s.triggerClosed
    ensures Run(s, steps, t) && ByThread(0, steps)
    ensures var filled := s.(len := s.len + n, trigger := true);
      t == if s.reading then filled
           else if spawns then At(filled, k, Counting).(reading := true)
           else filled.(reading := true, active := false)
  {
    Nothing(s);
    hide Run;
    steps, t := Serving(0, s, [], s, Fill(n));
    steps, t := Serving(0, s, steps, t, Offer);
    steps, t := Serving(0, s, steps, t, TryReading);
    if !s.reading {
      if spawns {
        steps, t := Serving(0, s, steps, t, Spawn(k));
      } else {
        steps, t := Serving(0, s, steps, t, SpawnFails);
        steps, t := Serving(0, s, steps, t, Fail);
      }
    }
    assert t.pc == if !s.reading && spawns then s.pc[k := Counting] else s.pc;
  }

  function With(s: State, i: nat, r: Reader): State
    requires i < |s.readers|
  {
    s.(readers := s.readers[i := r])
  }

  /** A reader goes on with its bytes if they are there, waits on an active connection, and else leaves. */
  function Looked(s: State, i: nat, n: int): State
    requires i < |s.readers|
  {
    With(s, i, if n <= s.len then Ready(n) else if s.active then Parked(n) else Away)
  }

  lemma LookAlone(i: nat, s: State, xs: seq<Action>, t: State, n: int) returns (steps: seq<Action>, u: State)
    requires Run(s, xs, t) && ByReader(i, xs) && i < |t.readers| && t.readers[i] == Looking(n)
    ensures Run(s, steps, u) && ByReader(i, steps) && u == Looked(t, i, n)
  {
    hide Run;
    steps, u := Reading(i, s, xs, t, Look);
    if n > t.len { steps, u := Reading(i, s, steps, u, AskActive); }
    assert u.readers == t.readers[i := u.readers[i]];
  }

  /** A reader whose bytes are there takes any number of those there are; one whose bytes are not, waits. */
  lemma ReaderAlone(s: State, i: nat, n: int, m: nat) returns (steps: seq<Action>, t: State)
    requires i < |s.readers| && s.active && m <= s.len && forall k | 0 <= k < |s.readers| :: s.readers[k].Away?
    ensures Run(s, steps, t) && ByReader(i, steps)
    ensures t == if n <= s.len then s.(len := s.len - m) else With(s, i, Parked(n))
  {
    Nothing(s);
    hide Run;
    steps, t := Reading(i, s, [], s, Enter(n));
    steps, t := LookAlone(i, s, steps, t, n);
    if n <= s.len { steps, t := Reading(i, s, steps, t, Take(m)); }
    assert t.readers == s.readers[i := t.readers[i]];
  }

  /** A parked reader that is woken takes the token and looks again; on a closed connection it does not wait. */
  lemma WokenAlone(s: State, i: nat) returns (steps: seq<Action>, t: State)
    requires i < |s.readers| && s.readers[i].Parked? && (s.trigger || s.triggerClosed)
    ensures Run(s, steps, t) && ByReader(i, steps) && t == Looked(s, i, s.readers[i].n).(trigger := false)
  {
    Nothing(s);
    hide Run;
    steps, t := Reading(i, s, [], s, Receive);
    steps, t := LookAlone(i, s, steps, t, s.readers[i].n);
    assert t.readers == s.readers[i := t.readers[i]];
  }

  /** A parked reader whose timer fires looks once more and leaves with its bytes or without. */
  lemma ExpiredAlone(s: State, i: nat) returns (steps: seq<Action>, t: State)
    requires i < |s.readers| && s.readers[i].Parked?
    ensures Run(s, steps, t) && ByReader(i, steps)
    ensures t == With(s, i, if s.readers[i].n <= s.len then Ready(s.readers[i].n) else Away)
  {
    Nothing(s);
    hide Run;
    steps, t := Reading(i, s, [], s, Expire);
    steps, t := Reading(i, s, steps, t, LookOnce);
    assert t.readers == s.readers[i := t.readers[i]];
  }
}
