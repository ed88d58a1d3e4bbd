/**
 Closing a TCP connection (tcpconn.go, closer.go, internal/safejob). Any number of threads begin and end the five
 guarded jobs, read, receive, and call Close, in any interleaving. A job's lock is taken by whoever stands between
 its lock and unlock: sysRead and sysWrite are tried, apiRead and apiCtrl waited for, apiWrite shared by its users
 and taken alone by Close. Close may be called while the caller is inside a job; it then waits for itself.
 */
module ConnClose {
  import opened Bytes

  datatype Job = SysRead | SysWrite | ApiRead | ApiWrite | ApiCtrl

  /** The order in which Close shuts the jobs: sysRead first, alone, and then all of them. */
  const ORDER: seq<Job> := [SysRead, SysRead, SysWrite, ApiRead, ApiWrite, ApiCtrl]

  /** How far a call of Close has come. */
  datatype Stage =
    | NotClosing
    | Lock(k: nat) | Mark(k: nat) | Unlock(k: nat)   // shutting job ORDER[k]
    | Trigger                                        // about to close readTrigger
    | Measure | Take(rlen: nat) | Store              // moving the unread bytes to closedReadBuf
    | Finish                                         // about to close closedFinished
    | UserHandler                                    // running the user's close handler
    | CloseFd | FreeIn | FreeOut | Closed

  /** A thread: the jobs whose bodies it is in, the job whose lock it took but has not looked at, its call of Close. */
  datatype Thread = Thread(held: set<Job>, entering: set<Job>, stage: Stage)

  /** The bytes of the inbound stream. */
  datatype Flow = Flow(
    received: seq<byte>,      // all bytes ever put into inBuffer
    delivered: seq<byte>,     // all bytes ever handed to readers, in order
    inBuf: seq<byte>,         // unread bytes of inBuffer
    temp: seq<byte>,          // bytes Close has taken from inBuffer and not stored yet
    fixed: seq<byte>)         // unread bytes of closedReadBuf

  /** What Close takes down. */
  datatype Part = ReadTrigger | ClosedFinished | NetFd | InBuffer | OutBuffer

  datatype State = State(
    down: bool,               // the closeAll flag
    closed: set<Job>,         // jobs marked closed
    torn: set<Part>,          // parts taken down
    flow: Flow,
    threads: seq<Thread>)

  datatype Step =
    | Begin(j: Job) | CheckClosed(j: Job) | End(j: Job)
    | Receive(data: seq<byte>) | Wake | ReadIn(n: nat) | ReadFixed(n: nat)
    | CallClose | CloseStep

  /** The thread stands between lock and unlock of the job. */
  predicate Owns(t: Thread, j: Job) {
    j in t.held || j in t.entering || Shuts(t.stage, j)
  }

  predicate Shuts(g: Stage, j: Job) {
    (g.Mark? || g.Unlock?) && g.k < |ORDER| && ORDER[g.k] == j
  }

  ghost predicate Available(s: State, j: Job, shared: bool) {
    forall i | 0 <= i < |s.threads| :: if shared then !Shuts(s.threads[i].stage, j) else !Owns(s.threads[i], j)
  }

  /** A thread runs user code or library code outside Close's own steps. */
  predicate Outside(t: Thread) {
    t.stage.NotClosing? || t.stage.UserHandler? || t.stage.Closed?
  }

  ghost predicate Enabled(s: State, i: nat, a: Step) {
    && i < |s.threads|
    && var t := s.threads[i];
       match a {
         case Begin(j) => Outside(t) && t.entering == {} && j !in t.held && Available(s, j, j == ApiWrite)
         case CheckClosed(j) => j in t.entering
         case End(j) => Outside(t) && t.entering == {} && j in t.held
         case Receive(_) => Outside(t) && t.entering == {} && SysRead in t.held
         case Wake => Outside(t) && t.entering == {} && SysRead in t.held
         case ReadIn(n) => Outside(t) && t.entering == {} && ApiRead in t.held && n <= |s.flow.inBuf|
         case ReadFixed(n) => Outside(t) && t.entering == {} && s.down && ApiRead !in t.held && n <= |s.flow.fixed|
         case CallClose => t.stage.NotClosing? && t.entering == {}
         case CloseStep =>
           && t.entering == {} && !t.stage.NotClosing? && !t.stage.Closed?
           && (t.stage.Lock? ==> t.stage.k < |ORDER| && Available(s, ORDER[t.stage.k], false))
           && (t.stage.Mark? || t.stage.Unlock? ==> t.stage.k < |ORDER|)
           && (t.stage.Take? ==> t.stage.rlen <= |s.flow.inBuf|)
       }
  }

  function With(s: State, i: nat, t: Thread): State
    requires i < |s.threads|
  {
    s.(threads := s.threads[i := t])
  }

  function NextStage(g: Stage, unread: nat): Stage {
    match g
    case NotClosing => NotClosing
    case Lock(k) => Mark(k)
    case Mark(k) => Unlock(k)
    case Unlock(k) => if k == 0 then Trigger else if k + 1 < |ORDER| then Lock(k + 1) else Measure
    case Trigger => Lock(1)
    case Measure => if unread == 0 then Finish else Take(unread)
    case Take(_) => Store
    case Store => Finish
    case Finish => UserHandler
    case UserHandler => CloseFd
    case CloseFd => FreeIn
    case FreeIn => FreeOut
    case FreeOut => Closed
    case Closed => Closed
  }

  /** The part a stage of Close takes down. */
  function Tears(g: Stage): set<Part> {
    match g
    case Trigger => {ReadTrigger}
    case Finish => {ClosedFinished}
    case CloseFd => {NetFd}
    case FreeIn => {InBuffer}
    case FreeOut => {OutBuffer}
    case _ => {}
  }

  /** What a stage of Close does to the stream: it moves the unread bytes to closedReadBuf and frees inBuffer. */
  function Moves(f: Flow, g: Stage): Flow
    requires g.Take? ==> g.rlen <= |f.inBuf|
  {
    match g
    case Take(rlen) => f.(temp := f.inBuf[..rlen], inBuf := f.inBuf[rlen..])
    case Store => f.(fixed := f.temp, temp := [])
    case FreeIn => f.(inBuf := [])
    case _ => f
  }

  function Next(s: State, i: nat, a: Step): State
    requires Enabled(s, i, a)
  {
    var t := s.threads[i];
    match a
    case Begin(j) => With(s, i, t.(entering := {j}))
    case CheckClosed(j) =>
      With(s, i, t.(entering := t.entering - {j}, held := if j in s.closed then t.held else t.held + {j}))
    case End(j) => With(s, i, t.(held := t.held - {j}))
    case Receive(data) => s.(flow := s.flow.(received := s.flow.received + data, inBuf := s.flow.inBuf + data))
    case Wake => s
    case ReadIn(n) => s.(flow := s.flow.(delivered := s.flow.delivered + s.flow.inBuf[..n], inBuf := s.flow.inBuf[n..]))
    case ReadFixed(n) => s.(flow := s.flow.(delivered := s.flow.delivered + s.flow.fixed[..n],
      fixed := s.flow.fixed[n..]))
    case CallClose => if s.down then s else With(s, i, t.(stage := Lock(0))).(down := true)
    case CloseStep =>
      var g := t.stage;
      State(s.down, if g.Mark? then s.closed + {ORDER[g.k]} else s.closed, s.torn + Tears(g), Moves(s.flow, g),
            s.threads[i := t.(stage := NextStage(g, |s.flow.inBuf|))])
  }

  ghost predicate Init(s: State) {
    && s == State(false, {}, {}, Flow([], [], [], [], []), s.threads)
    && forall i | 0 <= i < |s.threads| :: s.threads[i] == Thread({}, {}, NotClosing)
  }

  ghost predicate Run(s: State, steps: seq<(nat, Step)>, t: State)
    decreases |steps|
  {
    if steps == [] then s == t else
      Enabled(s, steps[0].0, steps[0].1) && Run(Next(s, steps[0].0, steps[0].1), steps[1..], t)
  }

  // ---- invariants ----

  /** The jobs closed before job ORDER[k] is shut. */
  function ShutBefore(k: nat): set<Job> {
    (if k > 0 then {SysRead} else {}) + (if k > 2 then {SysWrite} else {}) + (if k > 3 then {ApiRead} else {})
    + (if k > 4 then {ApiWrite} else {}) + (if k > 5 then {ApiCtrl} else {})
  }

  const ALL: set<Job> := {SysRead, SysWrite, ApiRead, ApiWrite, ApiCtrl}

  /** The jobs that are closed at a stage. */
  function Shut(g: Stage): set<Job> {
    match g
    case NotClosing => {}
    case Lock(k) => ShutBefore(k)
    case Mark(k) => ShutBefore(k)
    case Unlock(k) => ShutBefore(k + 1)
    case Trigger => {SysRead}
    case _ => ALL
  }

  predicate InRange(g: Stage) {
    g.Lock? || g.Mark? || g.Unlock? ==> g.k < |ORDER|
  }

  predicate Closing(t: Thread) {
    !t.stage.NotClosing?
  }

  /** Closing is once, and the jobs it has shut are closed. */
  ghost predicate Once(s: State) {
    && (forall i, i' | 0 <= i < |s.threads| && 0 <= i' < |s.threads| && Closing(s.threads[i]) &&
      Closing(s.threads[i']) :: i == i')
    && (forall i | 0 <= i < |s.threads| && Closing(s.threads[i]) ::
          s.down && InRange(s.threads[i].stage) && Shut(s.threads[i].stage) <= s.closed)
    && (ReadTrigger in s.torn ==> SysRead in s.closed)
  }

  /** Nobody is in the body of a closed job, and a job being shut has no user. */
  ghost predicate Guarded(s: State) {
    && (forall i, j | 0 <= i < |s.threads| && j in s.closed :: j !in s.threads[i].held)
    && (forall i, i', j | 0 <= i < |s.threads| && 0 <= i' < |s.threads| && Shuts(s.threads[i].stage, j) ::
          j !in s.threads[i'].held && j !in s.threads[i'].entering)
    && (forall i, j | 0 <= i < |s.threads| && j in s.threads[i].entering :: s.threads[i].entering == {j})
  }

  /** A step that leaves every call of Close where it is. */
  lemma OnceSame(s: State, t: State)
    requires Once(s) && s.down == t.down && s.closed == t.closed && s.torn == t.torn
    requires |s.threads| == |t.threads|
    requires forall i | 0 <= i < |s.threads| :: s.threads[i].stage == t.threads[i].stage
    ensures Once(t)
  {
    hide Shut, InRange;
    forall i | 0 <= i < |t.threads| && Closing(t.threads[i]) ensures Closing(s.threads[i]) {}
  }

  /** One step of Close stays on its path and has closed what the next stage needs closed. */
  lemma StageStep(g: Stage, unread: nat)
    requires InRange(g)
    ensures var h := NextStage(g, unread);
      && InRange(h) && (h.NotClosing? <==> g.NotClosing?) && (h.Mark? <==> g.Lock?) && (h.Unlock? <==> g.Mark?)
      && Shut(h) <= Shut(g) + (if g.Mark? then {ORDER[g.k]} else {})
  {}

  /** A step of the one call of Close. */
  lemma OnceClosing(s: State, i: nat)
    requires Once(s) && Enabled(s, i, CloseStep)
    ensures Once(Next(s, i, CloseStep))
  {
    hide Available, NextStage, Shut, InRange, Moves;
    var t, g := Next(s, i, CloseStep), s.threads[i].stage;
    assert Closing(s.threads[i]);
    StageStep(g, |s.flow.inBuf|);
    forall i' | 0 <= i' < |t.threads| && Closing(t.threads[i']) ensures i' == i {
      assert Closing(s.threads[i']);
    }
    TriggerShuts(g);
  }

  lemma TriggerShuts(g: Stage)
    ensures g.Trigger? ==> SysRead in Shut(g)
  {}

  lemma OnceKept(s: State, i: nat, a: Step)
    requires Once(s) && Enabled(s, i, a)
    ensures Once(Next(s, i, a))
  {
    hide Once, Available, Shut;
    var t := Next(s, i, a);
    if a.CloseStep? {
      OnceClosing(s, i);
    } else if a.CallClose? && !s.down {
      OnceCalled(s, i);
    } else {
      OnceSame(s, t);
    }
  }

  /** The first call of Close. */
  lemma OnceCalled(s: State, i: nat)
    requires Once(s) && !s.down && Enabled(s, i, CallClose)
    ensures Once(Next(s, i, CallClose))
  {
    hide Available;
    var t := Next(s, i, CallClose);
    forall i' | 0 <= i' < |t.threads| && i' != i ensures !Closing(t.threads[i']) {
      assert !Closing(s.threads[i']);
    }
  }

  /** A step of thread i that lets it stand inside no more jobs than before. */
  lemma GuardedLess(s: State, i: nat, t: State)
    requires Guarded(s) && i < |s.threads| == |t.threads| && t.threads == s.threads[i := t.threads[i]] &&
      t.closed == s.closed
    requires t.threads[i].held <= s.threads[i].held && t.threads[i].entering <= s.threads[i].entering
    requires forall j | Shuts(t.threads[i].stage, j) :: Shuts(s.threads[i].stage, j)
    ensures Guarded(t)
  {
    hide Shuts;
  }

  lemma GuardedBegin(s: State, i: nat, j: Job)
    requires Guarded(s) && Enabled(s, i, Begin(j))
    ensures Guarded(Next(s, i, Begin(j)))
  {
    hide Shuts;
    var t := Next(s, i, Begin(j));
    assert forall i' | 0 <= i' < |s.threads| :: !Shuts(s.threads[i'].stage, j);
  }

  lemma GuardedCheck(s: State, i: nat, j: Job)
    requires Guarded(s) && Enabled(s, i, CheckClosed(j))
    ensures Guarded(Next(s, i, CheckClosed(j)))
  {
    hide Shuts;
    var t := Next(s, i, CheckClosed(j));
    assert forall i' | 0 <= i' < |s.threads| :: !Shuts(s.threads[i'].stage, j);
  }

  lemma ShutsOne(g: Stage)
    requires InRange(g) && (g.Mark? || g.Unlock?)
    ensures forall j :: Shuts(g, j) <==> j == ORDER[g.k]
  {}

  lemma ShutsNone(g: Stage)
    requires !g.Mark? && !g.Unlock?
    ensures forall j :: !Shuts(g, j)
  {}

  lemma GuardedLock(s: State, i: nat)
    requires Guarded(s) && Enabled(s, i, CloseStep) && s.threads[i].stage.Lock?
    ensures Guarded(Next(s, i, CloseStep))
  {
    hide Shuts;
    assert forall i' | 0 <= i' < |s.threads| :: !Owns(s.threads[i'], ORDER[s.threads[i].stage.k]);
    ShutsOne(NextStage(s.threads[i].stage, |s.flow.inBuf|));
  }

  lemma GuardedMark(s: State, i: nat)
    requires Guarded(s) && Enabled(s, i, CloseStep) && s.threads[i].stage.Mark?
    ensures Guarded(Next(s, i, CloseStep))
  {
    hide Shuts, Available;
    ShutsOne(s.threads[i].stage);
    ShutsOne(NextStage(s.threads[i].stage, |s.flow.inBuf|));
  }

  lemma GuardedKept(s: State, i: nat, a: Step)
    requires Once(s) && Guarded(s) && Enabled(s, i, a)
    ensures Guarded(Next(s, i, a))
  {
    hide Guarded, Available, Moves, Tears, NextStage, Shuts;
    var t := Next(s, i, a);
    match a
    case Begin(j) => GuardedBegin(s, i, j);
    case CheckClosed(j) => GuardedCheck(s, i, j);
    case CloseStep =>
      var g := s.threads[i].stage;
      assert Closing(s.threads[i]);
      if g.Lock? {
        GuardedLock(s, i);
      } else if g.Mark? {
        GuardedMark(s, i);
      } else {
        StageStep(g, |s.flow.inBuf|);
        ShutsNone(NextStage(g, |s.flow.inBuf|));
        GuardedLess(s, i, t);
      }
    case CallClose =>
      ShutsNone(Lock(0));
      GuardedLess(s, i, t);
    case _ => GuardedLess(s, i, t);
  }

  /** A job other than apiWrite is in the hands of one thread. */
  ghost predicate Exclusive(s: State) {
    forall i, i', j | 0 <= i < |s.threads| && 0 <= i' < |s.threads| && j != ApiWrite
                      && In(s.threads[i], j) && In(s.threads[i'], j) :: i == i'
  }

  predicate In(t: Thread, j: Job) {
    j in t.held || j in t.entering
  }

  lemma ExclusiveKept(s: State, i: nat, a: Step)
    requires Exclusive(s) && Enabled(s, i, a)
    ensures Exclusive(Next(s, i, a))
  {
    hide Moves, Tears, NextStage, Shuts;
    var t := Next(s, i, a);
    if a.Begin? {
      assert a.j != ApiWrite ==> forall i' | 0 <= i' < |s.threads| :: !Owns(s.threads[i'], a.j);
    } else {
      forall i', j | 0 <= i' < |s.threads| && In(t.threads[i'], j) ensures In(s.threads[i'], j) {}
    }
  }

  // ---- the stream ----

  /** closedReadBuf has not been filled; inBuffer has been emptied. */
  predicate Early(g: Stage) {
    g.NotClosing? || g.Lock? || g.Mark? || g.Unlock? || g.Trigger? || g.Measure? || g.Take? || g.Store?
  }

  predicate Late(g: Stage) {
    !Early(g) || g.Store?
  }

  /** Received bytes are, in order, those delivered, those in closedReadBuf, those being moved and those in inBuffer. */
  ghost predicate FlowOk(f: Flow, g: Stage) {
    && f.received == f.delivered + f.fixed + f.temp + f.inBuf
    && (Early(g) ==> f.fixed == [])
    && (!g.Store? ==> f.temp == [])
    && (g.Take? ==> g.rlen == |f.inBuf|)
    && (Late(g) ==> f.inBuf == [])
  }

  /** The parts taken down before a stage. */
  function TornBefore(g: Stage): set<Part> {
    match g
    case NotClosing => {}
    case Lock(k) => if k == 0 then {} else {ReadTrigger}
    case Mark(k) => if k == 0 then {} else {ReadTrigger}
    case Unlock(k) => if k == 0 then {} else {ReadTrigger}
    case Trigger => {}
    case UserHandler => {ReadTrigger, ClosedFinished}
    case CloseFd => {ReadTrigger, ClosedFinished}
    case FreeIn => {ReadTrigger, ClosedFinished, NetFd}
    case FreeOut => {ReadTrigger, ClosedFinished, NetFd, InBuffer}
    case Closed => {ReadTrigger, ClosedFinished, NetFd, InBuffer, OutBuffer}
    case _ => {ReadTrigger}
  }

  /** How far the one call of Close has come. */
  ghost function Phase(s: State): Stage {
    if exists i :: 0 <= i < |s.threads| && Closing(s.threads[i]) then
      var i :| 0 <= i < |s.threads| && Closing(s.threads[i]);
      s.threads[i].stage
    else NotClosing
  }

  /** The stream and the parts are as the call of Close has left them. */
  ghost predicate Streamed(s: State) {
    FlowOk(s.flow, Phase(s)) && s.torn == TornBefore(Phase(s))
  }

  lemma PhaseIs(s: State, i: nat)
    requires Once(s) && i < |s.threads| && Closing(s.threads[i])
    ensures Phase(s) == s.threads[i].stage
  {}

  lemma PhaseShut(s: State)
    requires Once(s)
    ensures Shut(Phase(s)) <= s.closed && InRange(Phase(s))
  {}

  lemma PhaseSame(s: State, t: State)
    requires Once(s) && |s.threads| == |t.threads|
    requires forall i | 0 <= i < |s.threads| :: s.threads[i].stage == t.threads[i].stage
    ensures Phase(s) == Phase(t)
  {
    if i :| 0 <= i < |t.threads| && Closing(t.threads[i]) {
      assert Closing(s.threads[i]);
    } else if i :| 0 <= i < |s.threads| && Closing(s.threads[i]) {
      assert Closing(t.threads[i]);
    }
  }

  lemma FlowReceived(f: Flow, g: Stage, data: seq<byte>)
    requires FlowOk(f, g) && SysRead !in Shut(g)
    ensures FlowOk(f.(received := f.received + data, inBuf := f.inBuf + data), g)
  {}

  lemma FlowRead(f: Flow, g: Stage, n: nat)
    requires FlowOk(f, g) && ApiRead !in Shut(g) && n <= |f.inBuf|
    ensures FlowOk(f.(delivered := f.delivered + f.inBuf[..n], inBuf := f.inBuf[n..]), g)
  {
    assert f.inBuf[..n] + f.inBuf[n..] == f.inBuf;
  }

  lemma FlowReadFixed(f: Flow, g: Stage, n: nat)
    requires FlowOk(f, g) && n <= |f.fixed|
    ensures FlowOk(f.(delivered := f.delivered + f.fixed[..n], fixed := f.fixed[n..]), g)
  {
    assert f.fixed[..n] + f.fixed[n..] == f.fixed;
  }

  lemma FlowMoved(f: Flow, g: Stage)
    requires FlowOk(f, g)
    ensures FlowOk(Moves(f, g), NextStage(g, |f.inBuf|))
  {}

  lemma TornNext(g: Stage, unread: nat)
    requires InRange(g)
    ensures TornBefore(NextStage(g, unread)) == TornBefore(g) + Tears(g) && TornBefore(g) !! Tears(g)
  {}

  /** A step outside Close, which leaves every call of Close where it is. */
  lemma StreamedOutside(s: State, i: nat, a: Step)
    requires Once(s) && Guarded(s) && Streamed(s) && Enabled(s, i, a) && !a.CloseStep? && !(a.CallClose? && !s.down)
    ensures Streamed(Next(s, i, a))
  {
    hide FlowOk, Shut, TornBefore, Available, Moves, Phase, Once;
    PhaseShut(s);
    PhaseSame(s, Next(s, i, a));
    var g := Phase(s);
    match a
    case Receive(data) => FlowReceived(s.flow, g, data);
    case ReadIn(n) => FlowRead(s.flow, g, n);
    case ReadFixed(n) => FlowReadFixed(s.flow, g, n);
    case _ =>
  }

  lemma StreamedClosing(s: State, i: nat)
    requires Once(s) && Streamed(s) && Enabled(s, i, CloseStep)
    ensures Streamed(Next(s, i, CloseStep))
  {
    var t := Next(s, i, CloseStep);
    OnceClosing(s, i);
    hide FlowOk, Shut, TornBefore, Available, Moves, Phase, Once, NextStage, Tears;
    assert Closing(s.threads[i]);
    PhaseIs(s, i);
    PhaseShut(s);
    FlowMoved(s.flow, s.threads[i].stage);
    TornNext(s.threads[i].stage, |s.flow.inBuf|);
    StageStep(s.threads[i].stage, |s.flow.inBuf|);
    PhaseIs(t, i);
  }

  lemma StreamedCalled(s: State, i: nat)
    requires Once(s) && Streamed(s) && Enabled(s, i, CallClose) && !s.down
    ensures Streamed(Next(s, i, CallClose))
  {
    var t := Next(s, i, CallClose);
    OnceCalled(s, i);
    assert Phase(s) == NotClosing;
    hide Available, Phase, Once;
    PhaseIs(t, i);
  }

  // ---- every run ----

  ghost predicate Inv(s: State) {
    Once(s) && Guarded(s) && Exclusive(s) && Streamed(s)
  }

  lemma InvKept(s: State, i: nat, a: Step)
    requires Inv(s) && Enabled(s, i, a)
    ensures Inv(Next(s, i, a))
  {
    hide Once, Guarded, Exclusive, Streamed, Enabled, Next;
    OnceKept(s, i, a);
    GuardedKept(s, i, a);
    ExclusiveKept(s, i, a);
    if a.CloseStep? {
      StreamedClosing(s, i);
    } else if a.CallClose? && !s.down {
      StreamedCalled(s, i);
    } else {
      StreamedOutside(s, i, a);
    }
  }

  lemma Starts(s: State)
    requires Init(s)
    ensures Inv(s)
  {
    assert Phase(s) == NotClosing;
  }

  lemma {:induction false} Reachable(s: State, steps: seq<(nat, Step)>, t: State)
    requires Inv(s) && Run(s, steps, t)
    ensures Inv(t)
    decreases |steps|
  {
    hide Inv, Enabled, Next;
    if steps != [] {
      InvKept(s, steps[0].0, steps[0].1);
      Reachable(Next(s, steps[0].0, steps[0].1), steps[1..], t);
    }
  }

  lemma FromInit(s: State, steps: seq<(nat, Step)>, t: State)
    requires Init(s) && Run(s, steps, t)
    ensures Inv(t)
  {
    hide Inv, Run, Init;
    Starts(s);
    Reachable(s, steps, t);
  }

  /** Teardown happens once: one thread closes, and no part is taken down twice. */
  lemma ClosesOnce(s: State, steps: seq<(nat, Step)>, t: State, i: nat, i': nat)
    requires Init(s) && Run(s, steps, t) && i < |t.threads| && i' < |t.threads|
    ensures Closing(t.threads[i]) && Closing(t.threads[i']) ==> i == i'
    ensures Closing(t.threads[i]) ==> Tears(t.threads[i].stage) !! t.torn
  {
    hide Run, Init;
    FromInit(s, steps, t);
    if Closing(t.threads[i]) {
      PhaseIs(t, i);
      TornNext(t.threads[i].stage, 0);
    }
  }

  /** When Close waits for readers to leave apiRead, it has closed the channel they may be parked on. */
  lemma ReadersWoken(s: State, steps: seq<(nat, Step)>, t: State, i: nat)
    requires Init(s) && Run(s, steps, t) && i < |t.threads| && t.threads[i].stage.Lock?
    ensures t.threads[i].stage.k < |ORDER| && (ORDER[t.threads[i].stage.k] == ApiRead ==> ReadTrigger in t.torn)
  {
    hide Run, Init;
    FromInit(s, steps, t);
    assert Closing(t.threads[i]);
    PhaseIs(t, i);
  }

  /** One thread at a time is in the body of a job, except that API writes run side by side. */
  lemma OneBody(s: State, steps: seq<(nat, Step)>, t: State, i: nat, i': nat, j: Job)
    requires Init(s) && Run(s, steps, t) && i < |t.threads| && i' < |t.threads| && j != ApiWrite
    ensures j in t.threads[i].held && j in t.threads[i'].held ==> i == i'
  {
    hide Run, Init;
    FromInit(s, steps, t);
    assert j in t.threads[i].held ==> In(t.threads[i], j);
    assert j in t.threads[i'].held ==> In(t.threads[i'], j);
  }

  lemma EveryJob(j: Job)
    ensures j in ALL
  {
    match j
    case SysRead => case SysWrite => case ApiRead => case ApiWrite => case ApiCtrl =>
  }

  /** Close is past shutting the jobs: it moves and frees the buffers from here on. */
  predicate TearingDown(g: Stage) {
    Shut(g) == ALL
  }

  /** While the buffers are moved and freed, and at any later time, no thread is in the body of any job. */
  lemma {:induction false} NoBodyLater(s: State, steps: seq<(nat, Step)>, t: State, k: nat, more: seq<(nat, Step)>,
      u: State, i: nat)
    requires Init(s) && Run(s, steps, t) && k < |t.threads| && TearingDown(t.threads[k].stage)
    requires Run(t, more, u) && i < |u.threads|
    ensures u.threads[i].held == {}
  {
    hide Run, Init;
    FromInit(s, steps, t);
    StaysShut(t, more, u);
    Reachable(t, more, u);
    forall j ensures j !in u.threads[i].held {
      EveryJob(j);
    }
  }

  /** A closed job stays closed. */
  lemma {:induction false} StaysShut(s: State, steps: seq<(nat, Step)>, t: State)
    requires Run(s, steps, t)
    ensures s.closed <= t.closed
    decreases |steps|
  {
    if steps != [] {
      StaysShut(Next(s, steps[0].0, steps[0].1), steps[1..], t);
    }
  }

  /** A thread about to send on readTrigger finds it open, and a thread about to use a buffer finds it in place. */
  lemma NothingMissing(s: State, steps: seq<(nat, Step)>, t: State, i: nat)
    requires Init(s) && Run(s, steps, t) && i < |t.threads|
    ensures SysRead in t.threads[i].held ==> ReadTrigger !in t.torn
    ensures t.threads[i].held != {} ==> {NetFd, InBuffer, OutBuffer} !! t.torn && t.flow.fixed == [] == t.flow.temp
  {
    hide Run, Init;
    FromInit(s, steps, t);
    PhaseShut(t);
    if j :| j in t.threads[i].held {
      EveryJob(j);
      assert !(ALL <= t.closed);
    }
    hide Once, Exclusive, Phase;
  }

  // ---- what the steps say ----

  /** The bytes that came in, in order. */
  function Arrived(steps: seq<(nat, Step)>): seq<byte> {
    if steps == [] then [] else (if steps[0].1.Receive? then steps[0].1.data else []) + Arrived(steps[1..])
  }

  /** How many bytes readers asked for and got. */
  function ReadBy(a: Step): nat {
    if a.ReadIn? || a.ReadFixed? then a.n else 0
  }

  function ReadOut(steps: seq<(nat, Step)>): nat {
    if steps == [] then 0 else ReadBy(steps[0].1) + ReadOut(steps[1..])
  }

  lemma FlowNext(s: State, i: nat, a: Step)
    requires Enabled(s, i, a)
    ensures var t := Next(s, i, a);
      && t.flow.received == s.flow.received + (if a.Receive? then a.data else [])
      && |t.flow.delivered| == |s.flow.delivered| + ReadBy(a)
      && (t.down <==> s.down || a.CallClose?)
  {
    hide Available, Tears, NextStage;
  }

  lemma {:induction false} ArrivedRun(s: State, steps: seq<(nat, Step)>, t: State)
    requires Run(s, steps, t)
    ensures t.flow.received == s.flow.received + Arrived(steps)
    decreases |steps|
  {
    if steps != [] {
      RunParts(s, steps, t);
      hide Run, Next, Enabled, ReadBy;
      var u, data := Next(s, steps[0].0, steps[0].1), if steps[0].1.Receive? then steps[0].1.data else [];
      FlowNext(s, steps[0].0, steps[0].1);
      ArrivedRun(u, steps[1..], t);
      assert s.flow.received + (data + Arrived(steps[1..])) == s.flow.received + data + Arrived(steps[1..]);
    }
  }

  lemma {:induction false} ReadRun(s: State, steps: seq<(nat, Step)>, t: State)
    requires Run(s, steps, t)
    ensures |t.flow.delivered| == |s.flow.delivered| + ReadOut(steps)
    decreases |steps|
  {
    if steps != [] {
      RunParts(s, steps, t);
      hide Run, Next, Enabled, ReadBy;
      FlowNext(s, steps[0].0, steps[0].1);
      ReadRun(Next(s, steps[0].0, steps[0].1), steps[1..], t);
    }
  }

  lemma RunParts(s: State, steps: seq<(nat, Step)>, t: State)
    requires Run(s, steps, t) && steps != []
    ensures Enabled(s, steps[0].0, steps[0].1) && Run(Next(s, steps[0].0, steps[0].1), steps[1..], t)
  {
    hide Next, Enabled;
  }

  lemma {:induction false} DownRun(s: State, steps: seq<(nat, Step)>, t: State)
    requires Run(s, steps, t)
    ensures t.down <==> s.down || exists x :: x in steps && x.1.CallClose?
    decreases |steps|
  {
    if steps != [] {
      hide Next, Enabled;
      FlowNext(s, steps[0].0, steps[0].1);
      DownRun(Next(s, steps[0].0, steps[0].1), steps[1..], t);
      assert steps == [steps[0]] + steps[1..];
    }
  }

  /** A connection is down exactly when some thread has called Close. */
  lemma DownIff(s: State, steps: seq<(nat, Step)>, t: State)
    requires Init(s) && Run(s, steps, t)
    ensures t.down <==> exists x :: x in steps && x.1.CallClose?
  {
    DownRun(s, steps, t);
  }

  /**
   Readers have got as many bytes as they asked for, from the first one that came in on, each byte once and in order,
   across Close; and Close loses none of the rest.
   */
  lemma StreamContinues(s: State, steps: seq<(nat, Step)>, t: State)
    requires Init(s) && Run(s, steps, t)
    ensures ReadOut(steps) <= |Arrived(steps)| && t.flow.delivered == Arrived(steps)[..ReadOut(steps)]
    ensures t.flow.received == Arrived(steps)
    ensures Arrived(steps)[ReadOut(steps)..] == t.flow.fixed + t.flow.temp + t.flow.inBuf
    ensures InBuffer in t.torn ==> Arrived(steps)[ReadOut(steps)..] == t.flow.fixed
  {
    hide Run, Init, Arrived, ReadOut;
    FlowSays(s, steps, t);
    FlowFrom(s, steps, t);
    Split(t.flow.received, t.flow.delivered, t.flow.fixed + t.flow.temp + t.flow.inBuf);
  }

  lemma FlowSays(s: State, steps: seq<(nat, Step)>, t: State)
    requires Init(s) && Run(s, steps, t)
    ensures t.flow.received == Arrived(steps) && |t.flow.delivered| == ReadOut(steps)
  {
    hide Run, Arrived, ReadOut;
    ArrivedRun(s, steps, t);
    ReadRun(s, steps, t);
  }

  lemma FlowFrom(s: State, steps: seq<(nat, Step)>, t: State)
    requires Init(s) && Run(s, steps, t)
    ensures var f := t.flow;
      && f.received == f.delivered + (f.fixed + f.temp + f.inBuf)
      && (InBuffer in t.torn ==> f.fixed + f.temp + f.inBuf == f.fixed)
  {
    hide Run, Init;
    FromInit(s, steps, t);
    hide Once, Guarded, Exclusive, Phase;
    var f := t.flow;
    assert f.delivered + f.fixed + f.temp + f.inBuf == f.delivered + (f.fixed + f.temp + f.inBuf);
  }

  lemma Split(whole: seq<byte>, a: seq<byte>, b: seq<byte>)
    requires whole == a + b
    ensures |a| <= |whole| && whole[..|a|] == a && whole[|a|..] == b
  {}

  // ---- jobs and Close that nobody interrupts ----

  /** The steps are all of one thread. */
  ghost predicate Own(i: nat, steps: seq<(nat, Step)>) {
    forall x | x in steps :: x.0 == i
  }

  lemma OneStep(s: State, i: nat, a: Step) returns (steps: seq<(nat, Step)>, t: State)
    requires Enabled(s, i, a)
    ensures t == Next(s, i, a) && Run(s, steps, t) && Own(i, steps) && steps == [(i, a)]
  {
    t, steps := Next(s, i, a), [(i, a)];
    assert steps[1..] == [] && Run(t, [], t);
  }

  lemma {:induction false} Join(i: nat, s: State, xs: seq<(nat, Step)>, t: State, ys: seq<(nat, Step)>, u: State)
      returns (steps: seq<(nat, Step)>)
    requires Run(s, xs, t) && Run(t, ys, u) && Own(i, xs) && Own(i, ys)
    ensures Run(s, steps, u) && Own(i, steps) && steps == xs + ys
    decreases |xs|
  {
    steps := xs + ys;
    if xs == [] {
      assert steps == ys;
    } else {
      hide Next, Enabled;
      assert steps[1..] == xs[1..] + ys && xs[0] in xs && forall x | x in xs[1..] :: x in xs;
      var _ := Join(i, Next(s, xs[0].0, xs[0].1), xs[1..], t, ys, u);
    }
  }

  /** A job that is free lets a thread into its body exactly when it is not closed, and out of it again. */
  lemma JobAlone(s: State, i: nat, j: Job) returns (steps: seq<(nat, Step)>, t: State)
    requires Enabled(s, i, Begin(j))
    ensures Run(s, steps, t) && Own(i, steps)
    ensures t == if j in s.closed then s else With(s, i, s.threads[i].(held := s.threads[i].held + {j}))
    ensures j !in s.closed ==> Enabled(t, i, End(j)) && Next(t, i, End(j)) == s
  {
    var more, u, v;
    steps, u := OneStep(s, i, Begin(j));
    more, t := OneStep(u, i, CheckClosed(j));
    hide Run;
    steps := Join(i, s, steps, u, more, t);
    var th := s.threads[i];
    assert {j} - {j} == {} && th.held + {j} - {j} == th.held;
    assert s.threads[i := th.(entering := {j})][i := th] == s.threads;
    if j !in s.closed {
      v := Next(t, i, End(j));
      assert v.threads == s.threads;
    }
  }

  /** No thread stands in a job, and nobody but thread i is in Close. */
  ghost predicate Unused(s: State, i: nat) {
    && i < |s.threads|
    && (forall k | 0 <= k < |s.threads| :: s.threads[k].held == {} == s.threads[k].entering)
    && (forall k | 0 <= k < |s.threads| && k != i :: !Closing(s.threads[k]))
  }

  /** How many steps a call of Close still has to go, at most. */
  function Remaining(g: Stage): nat {
    match g
    case NotClosing => 40
    case Lock(k) => (if k == 0 then 37 else if k < 6 then 33 - 3 * k else 0)
    case Mark(k) => (if k == 0 then 36 else if k < 6 then 32 - 3 * k else 0)
    case Unlock(k) => (if k == 0 then 35 else if k < 6 then 31 - 3 * k else 0)
    case Trigger => 34
    case Measure => 9
    case Take(_) => 8
    case Store => 7
    case Finish => 6
    case UserHandler => 5
    case CloseFd => 4
    case FreeIn => 3
    case FreeOut => 2
    case Closed => 0
  }

  lemma Progresses(g: Stage, unread: nat)
    requires InRange(g) && !g.NotClosing? && !g.Closed?
    ensures Remaining(NextStage(g, unread)) < Remaining(g)
  {}

  /** A call of Close can take its next step when no job is in use. */
  lemma CloseEnabled(s: State, i: nat)
    requires Inv(s) && Unused(s, i) && Closing(s.threads[i]) && !s.threads[i].stage.Closed?
    ensures InRange(s.threads[i].stage) && Enabled(s, i, CloseStep)
    ensures var t := Next(s, i, CloseStep);
      && Unused(t, i) && t.threads[i].stage == NextStage(s.threads[i].stage, |s.flow.inBuf|)
      && t.threads == s.threads[i := s.threads[i].(stage := t.threads[i].stage)]
      && t.flow.delivered == s.flow.delivered && t.flow.received == s.flow.received
  {
    var g := s.threads[i].stage;
    PhaseIs(s, i);
    PhaseShut(s);
    if g.Lock? {
      forall k | 0 <= k < |s.threads| ensures !Owns(s.threads[k], ORDER[g.k]) {}
    }
    StageStep(g, |s.flow.inBuf|);
    hide NextStage, Phase, Once;
  }

  /** A call of Close at any stage runs to its end by its own steps, once no job is in use. */
  lemma {:induction false} ClosesOn(s: State, i: nat) returns (steps: seq<(nat, Step)>, t: State)
    requires Inv(s) && Unused(s, i) && Closing(s.threads[i])
    ensures Run(s, steps, t) && Own(i, steps) && Inv(t)
    ensures t.threads == s.threads[i := s.threads[i].(stage := Closed)]
    ensures t.flow.delivered == s.flow.delivered && t.flow.received == s.flow.received
    decreases Remaining(s.threads[i].stage)
  {
    if s.threads[i].stage.Closed? {
      steps, t := [], s;
    } else {
      CloseEnabled(s, i);
      InvKept(s, i, CloseStep);
      Progresses(s.threads[i].stage, |s.flow.inBuf|);
      StageStep(s.threads[i].stage, |s.flow.inBuf|);
      hide Inv, Run, Next, Enabled, NextStage, Remaining;
      var more, u, rest;
      more, u := OneStep(s, i, CloseStep);
      rest, t := ClosesOn(u, i);
      steps := Join(i, s, more, u, rest, t);
    }
  }

  /** What a finished Close leaves: all parts down, all jobs closed, and the unread bytes in closedReadBuf. */
  lemma ClosedState(t: State, i: nat)
    requires Inv(t) && i < |t.threads| && t.threads[i].stage.Closed?
    ensures t.down && t.torn == {ReadTrigger, ClosedFinished, NetFd, InBuffer, OutBuffer} && t.closed == ALL
    ensures t.flow.inBuf == [] == t.flow.temp && t.flow.received == t.flow.delivered + t.flow.fixed
  {
    assert Closing(t.threads[i]);
    PhaseIs(t, i);
    PhaseShut(t);
    forall j ensures j in ALL { EveryJob(j); }
  }

  /**
   From every reachable state in which nobody has called Close and no thread is in a job, a call of Close runs to its
   end by its own steps. It has then closed every job, taken every part down, and put the unread bytes where readers
   find them.
   */
  lemma CloseAlone(s: State, steps: seq<(nat, Step)>, t: State, i: nat) returns (more: seq<(nat, Step)>, u: State)
    requires Init(s) && Run(s, steps, t) && !t.down && i < |t.threads|
    requires forall k | 0 <= k < |t.threads| :: t.threads[k].held == {} == t.threads[k].entering
    ensures Run(t, more, u) && Own(i, more) && more != [] && more[0] == (i, CallClose)
    ensures u == State(true, ALL, {ReadTrigger, ClosedFinished, NetFd, InBuffer, OutBuffer},
                       Flow(t.flow.received, t.flow.delivered, [], [], t.flow.inBuf),
                       t.threads[i := t.threads[i].(stage := Closed)])
  {
    FromInit(s, steps, t);
    forall k | 0 <= k < |t.threads| ensures !Closing(t.threads[k]) {}
    assert t.flow.received == t.flow.delivered + t.flow.inBuf by { assert Phase(t) == NotClosing; }
    InvKept(t, i, CallClose);
    var xs, v, ys;
    xs, v := OneStep(t, i, CallClose);
    assert Unused(v, i) && v.threads == t.threads[i := t.threads[i].(stage := Lock(0))];
    hide Inv, Run, Next, Enabled;
    ys, u := ClosesOn(v, i);
    more := Join(i, t, xs, v, ys, u);
    ClosedState(u, i);
    assert u.threads == t.threads[i := t.threads[i].(stage := Closed)];
    assert u.flow.fixed == u.flow.received[|u.flow.delivered|..] == t.flow.inBuf;
  }
}
