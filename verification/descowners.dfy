/**
 Who owns which poller descriptor (netfd.go, internal/poller/desc_cache.go): any number of threads call Schedule,
 Control and close on any number of netFDs that share one descriptor cache, while the poller recycles marked
 descriptors. Each step is one critical section; Schedule looks at desc, takes a descriptor, sets desc and registers
 interest in four of them.
 */
module DescOwners {
  import opened DescCache

  datatype Holding = None | Some(d: nat)

  datatype Fd = Fd(desc: Holding, closed: bool)

  /** Where a call of Schedule stands: desc was unset, a descriptor is taken, desc is set. */
  datatype Pc = Idle | Looked(f: nat) | Taken(f: nat, d: nat) | Attached(f: nat)

  datatype State = State(
    fds: seq<Fd>,
    pc: seq<Pc>,
    status: seq<Status>,     // of every descriptor of the cache
    marks: seq<nat>,         // the cache's list of descriptors to be freed
    misplaced: bool)         // whether a descriptor was ever attached to a netFD that had one or was closed

  datatype Step =
    | Look(f: nat) | Take(grow: nat, d: nat) | Refuse | Attach | Control
    | Close(f: nat) | FreeAll

  /** The cache after it was extended. */
  function Extended(status: seq<Status>, grow: nat): (r: seq<Status>)
    ensures |r| == |status| + grow && r[..|status|] == status && forall i | |status| <= i < |r| :: r[i] == Free
  {
    status + seq(grow, _ => Free)
  }

  predicate Enabled(s: State, i: nat, a: Step) {
    && i < |s.pc|
    && match a {
         case Look(f) => s.pc[i].Idle? && f < |s.fds|
         case Take(grow, d) => s.pc[i].Looked? && d < |s.status| + grow && Extended(s.status, grow)[d].Free?
         case Refuse => s.pc[i].Taken? && s.pc[i].d < |s.status|
         case Attach => s.pc[i].Taken? && s.pc[i].f < |s.fds|
         case Control => s.pc[i].Attached?
         case Close(f) => s.pc[i].Idle? && f < |s.fds| && (s.fds[f].desc.Some? ==> s.fds[f].desc.d < |s.status|)
         case FreeAll => s.pc[i].Idle?
       }
  }

  function Marking(s: State, d: nat): State
    requires d < |s.status|
  {
    s.(status := s.status[d := Marked], marks := s.marks + [d])
  }

  function Recycled(status: seq<Status>): (r: seq<Status>)
    ensures |r| == |status| && forall i | 0 <= i < |r| :: r[i] == if status[i].Marked? then Free else status[i]
  {
    seq(|status|, i requires 0 <= i < |status| => if status[i].Marked? then Free else status[i])
  }

  function Next(s: State, i: nat, a: Step): State
    requires Enabled(s, i, a)
  {
    match a
    case Look(f) => s.(pc := s.pc[i := if s.fds[f].desc.None? then Looked(f) else Idle])
    case Take(grow, d) =>
      s.(pc := s.pc[i := Taken(s.pc[i].f, d)], status := Extended(s.status, grow)[d := InUse])
    case Refuse => Marking(s, s.pc[i].d).(pc := s.pc[i := Idle])
    case Attach =>
      var f, fd := s.pc[i].f, s.fds[s.pc[i].f];
      s.(pc := s.pc[i := Attached(f)], fds := s.fds[f := fd.(desc := Some(s.pc[i].d))],
         misplaced := s.misplaced || fd.closed || fd.desc.Some?)
    case Control => s.(pc := s.pc[i := Idle])
    case Close(f) =>
      if s.fds[f].closed then s
      else
        var t := s.(fds := s.fds[f := Fd(None, true)]);
        if s.fds[f].desc.None? then t else Marking(t, s.fds[f].desc.d)
    case FreeAll => s.(status := Recycled(s.status), marks := [])
  }

  ghost predicate Init(s: State) {
    && s.status == [] && s.marks == [] && !s.misplaced
    && (forall i | 0 <= i < |s.pc| :: s.pc[i].Idle?)
    && (forall f | 0 <= f < |s.fds| :: s.fds[f] == Fd(None, false))
  }

  ghost predicate Run(s: State, steps: seq<(nat, Step)>, t: State)
    decreases |steps|
  {
    if steps == [] then s == t else
      Enabled(s, steps[0].0, steps[0].1) && Run(Next(s, steps[0].0, steps[0].1), steps[1..], t)
  }

  lemma OneStep(s: State, i: nat, a: Step)
    requires Enabled(s, i, a)
    ensures Run(s, [(i, a)], Next(s, i, a))
  {
    assert [(i, a)][1..] == [] && Run(Next(s, i, a), [], Next(s, i, a));
  }

  lemma {:induction false} Join(s: State, xs: seq<(nat, Step)>, t: State, ys: seq<(nat, Step)>, u: State)
    requires Run(s, xs, t) && Run(t, ys, u)
    ensures Run(s, xs + ys, u)
    decreases |xs|
  {
    if xs == [] {
      assert xs + ys == ys;
    } else {
      assert (xs + ys)[1..] == xs[1..] + ys;
      Join(Next(s, xs[0].0, xs[0].1), xs[1..], t, ys, u);
    }
  }

  // ---- owners ----

  /** Whatever can hold a descriptor: a thread that has taken one, or a netFD. */
  datatype Owner = Thread(i: nat) | Net(f: nat)

  function Held(s: State, o: Owner): Holding {
    match o
    case Thread(i) => if i < |s.pc| && s.pc[i].Taken? then Some(s.pc[i].d) else None
    case Net(f) => if f < |s.fds| then s.fds[f].desc else None
  }

  ghost predicate HasStatus(s: State, d: nat, st: Status) {
    d < |s.status| && s.status[d] == st
  }

  /** Held descriptors are in use, each by one owner. */
  ghost predicate Owners(s: State) {
    && (forall i | 0 <= i < |s.pc| && !s.pc[i].Idle? :: s.pc[i].f < |s.fds|)
    && (forall o | Held(s, o).Some? :: HasStatus(s, Held(s, o).d, InUse))
    && (forall o, p | Held(s, o).Some? && Held(s, o) == Held(s, p) :: o == p)
  }

  /** The list of marks names exactly the marked descriptors, each once. */
  ghost predicate Marks(s: State) {
    && NoDup(s.marks)
    && (forall k | 0 <= k < |s.marks| :: HasStatus(s, s.marks[k], Marked))
    && (forall d | 0 <= d < |s.status| && s.status[d].Marked? :: d in s.marks)
  }

  /** A descriptor in use that no thread is about to attach and no netFD will give back when it is closed. */
  ghost predicate Leaked(s: State, d: nat) {
    && HasStatus(s, d, InUse)
    && (forall i | 0 <= i < |s.pc| :: Held(s, Thread(i)) != Some(d))
    && (forall f | 0 <= f < |s.fds| :: Held(s, Net(f)) == Some(d) ==> s.fds[f].closed)
  }

  /** Without a misplaced descriptor nothing is leaked, and closed netFDs hold nothing. */
  ghost predicate Clean(s: State) {
    && (forall f | 0 <= f < |s.fds| && s.fds[f].closed :: s.fds[f].desc.None?)
    && (forall d | HasStatus(s, d, InUse) :: exists o :: Held(s, o) == Some(d))
  }

  ghost predicate Inv(s: State) {
    Owners(s) && Marks(s) && (if s.misplaced then exists d :: Leaked(s, d) else Clean(s))
  }

  // ---- each step keeps them ----

  lemma HeldNext(s: State, i: nat, a: Step, o: Owner)
    requires Enabled(s, i, a)
    ensures Held(Next(s, i, a), o) ==
      if o == Thread(i) then (if a.Take? then Some(a.d) else None)
      else if a.Attach? && o == Net(s.pc[i].f) then Some(s.pc[i].d)
      else if a.Close? && o == Net(a.f) && !s.fds[a.f].closed then None
      else Held(s, o)
  {}

  /** The descriptor a step marks. */
  function MarkedBy(s: State, i: nat, a: Step): Holding
    requires Enabled(s, i, a)
  {
    match a
    case Refuse => Held(s, Thread(i))
    case Close(f) => if s.fds[f].closed then None else Held(s, Net(f))
    case _ => None
  }

  lemma StatusNext(s: State, i: nat, a: Step, d: nat)
    requires Enabled(s, i, a)
    ensures HasStatus(Next(s, i, a), d, InUse) <==>
      (HasStatus(s, d, InUse) || (a.Take? && a.d == d)) && MarkedBy(s, i, a) != Some(d)
  {}

  /** The owner that had, before a step, what this one has after it. */
  function Origin(s: State, i: nat, a: Step, o: Owner): Owner
    requires Enabled(s, i, a)
  {
    if a.Attach? && o == Net(s.pc[i].f) then Thread(i) else o
  }

  /** What is held after a step was held before it, and is not what the step marked; or it is what the step took. */
  lemma HeldFrom(s: State, i: nat, a: Step, o: Owner)
    requires Owners(s) && Enabled(s, i, a) && Held(Next(s, i, a), o).Some?
    ensures var h := Held(Next(s, i, a), o);
      if a.Take? && o == Thread(i) then h == Some(a.d)
      else h == Held(s, Origin(s, i, a, o)) && h != MarkedBy(s, i, a)
  {
    HeldNext(s, i, a, o);
  }

  /** A descriptor that is taken was held by nobody. */
  lemma TakenIsFree(s: State, i: nat, a: Step, o: Owner)
    requires Owners(s) && Enabled(s, i, a) && a.Take?
    ensures Held(s, o) != Some(a.d)
  {}

  lemma OwnersKept(s: State, i: nat, a: Step)
    requires Owners(s) && Enabled(s, i, a)
    ensures Owners(Next(s, i, a))
  {
    var t := Next(s, i, a);
    forall o | Held(t, o).Some? ensures HasStatus(t, Held(t, o).d, InUse) {
      HeldFrom(s, i, a, o);
      StatusNext(s, i, a, Held(t, o).d);
    }
    forall o, p | Held(t, o).Some? && Held(t, o) == Held(t, p) ensures o == p {
      SoleOwner(s, i, a, o, p);
    }
  }

  lemma SoleOwner(s: State, i: nat, a: Step, o: Owner, p: Owner)
    requires Owners(s) && Enabled(s, i, a)
    requires Held(Next(s, i, a), o).Some? && Held(Next(s, i, a), o) == Held(Next(s, i, a), p)
    ensures o == p
  {
    HeldFrom(s, i, a, o);
    HeldFrom(s, i, a, p);
    HeldNext(s, i, a, o);
    HeldNext(s, i, a, p);
    if a.Take? {
      TakenIsFree(s, i, a, o);
      TakenIsFree(s, i, a, p);
    }
  }

  lemma MarksKept(s: State, i: nat, a: Step)
    requires Owners(s) && Marks(s) && Enabled(s, i, a)
    ensures Marks(Next(s, i, a))
  {
    var t, h := Next(s, i, a), MarkedBy(s, i, a);
    forall d | 0 <= d < |t.status| && t.status[d].Marked? ensures d in t.marks {
      if h != Some(d) { assert d in s.marks; }
    }
  }

  lemma LeakedKept(s: State, i: nat, a: Step, d: nat)
    requires Owners(s) && Enabled(s, i, a) && Leaked(s, d)
    ensures Leaked(Next(s, i, a), d)
  {
    var t := Next(s, i, a);
    StatusNext(s, i, a, d);
    forall j | 0 <= j < |t.pc| ensures Held(t, Thread(j)) != Some(d) {
      HeldNext(s, i, a, Thread(j));
    }
    forall f | 0 <= f < |t.fds| ensures Held(t, Net(f)) == Some(d) ==> t.fds[f].closed {
      HeldNext(s, i, a, Net(f));
    }
  }

  /** Attaching a descriptor to a netFD that has one loses that one, and to a closed netFD, the new one. */
  lemma Misplacing(s: State, i: nat)
    requires Owners(s) && Enabled(s, i, Attach)
    requires s.fds[s.pc[i].f].closed || s.fds[s.pc[i].f].desc.Some?
    ensures exists d :: Leaked(Next(s, i, Attach), d)
  {
    var t, f := Next(s, i, Attach), s.pc[i].f;
    var d := if s.fds[f].closed then s.pc[i].d else s.fds[f].desc.d;
    assert Held(s, Thread(i)) == Some(s.pc[i].d) && Held(s, Net(f)) == s.fds[f].desc;
    StatusNext(s, i, Attach, d);
    forall j | 0 <= j < |t.pc| ensures Held(t, Thread(j)) != Some(d) {
      HeldNext(s, i, Attach, Thread(j));
    }
    forall g | 0 <= g < |t.fds| ensures Held(t, Net(g)) == Some(d) ==> t.fds[g].closed {
      HeldNext(s, i, Attach, Net(g));
    }
    assert Leaked(t, d);
  }

  lemma CleanKept(s: State, i: nat, a: Step)
    requires Owners(s) && Clean(s) && Enabled(s, i, a) && !Next(s, i, a).misplaced
    ensures Clean(Next(s, i, a))
  {
    var t := Next(s, i, a);
    forall d | HasStatus(t, d, InUse) ensures exists o :: Held(t, o) == Some(d) {
      StatusNext(s, i, a, d);
      if a.Take? && a.d == d {
        HeldNext(s, i, a, Thread(i));
      } else {
        var o :| Held(s, o) == Some(d);
        StillHeld(s, i, a, o);
      }
    }
  }

  /** What a step does not mark is still held, by the netFD it was attached to if it was. */
  lemma StillHeld(s: State, i: nat, a: Step, o: Owner)
    requires Owners(s) && Enabled(s, i, a) && !Next(s, i, a).misplaced
    requires Held(s, o).Some? && Held(s, o) != MarkedBy(s, i, a)
    ensures exists p :: Held(Next(s, i, a), p) == Held(s, o)
  {
    var p := if a.Attach? && o == Thread(i) then Net(s.pc[i].f) else o;
    HeldNext(s, i, a, p);
    assert Held(Next(s, i, a), p) == Held(s, o);
  }

  lemma InvKept(s: State, i: nat, a: Step)
    requires Inv(s) && Enabled(s, i, a)
    ensures Inv(Next(s, i, a))
  {
    hide Owners, Marks, Clean, Leaked;
    OwnersKept(s, i, a);
    MarksKept(s, i, a);
    var t := Next(s, i, a);
    if s.misplaced {
      var d :| Leaked(s, d);
      LeakedKept(s, i, a, d);
    } else if t.misplaced {
      Misplacing(s, i);
    } else {
      CleanKept(s, i, a);
    }
  }

  // ---- over every run ----

  lemma {:induction false} InvRun(s: State, steps: seq<(nat, Step)>, t: State)
    requires Inv(s) && Run(s, steps, t)
    ensures Inv(t)
    decreases |steps|
  {
    if steps != [] {
      InvKept(s, steps[0].0, steps[0].1);
      InvRun(Next(s, steps[0].0, steps[0].1), steps[1..], t);
    }
  }

  lemma InitInv(s: State)
    requires Init(s)
    ensures Inv(s)
  {}

  /** The step sets the desc of a netFD that has one, or of a closed one. */
  predicate Overwrites(s: State, i: nat, a: Step)
    requires Enabled(s, i, a)
  {
    a.Attach? && (s.fds[s.pc[i].f].closed || s.fds[s.pc[i].f].desc.Some?)
  }

  /** Some step of the run does. */
  ghost predicate Misplaces(s: State, steps: seq<(nat, Step)>, t: State)
    requires Run(s, steps, t)
    decreases |steps|
  {
    && steps != []
    && (Overwrites(s, steps[0].0, steps[0].1) || Misplaces(Next(s, steps[0].0, steps[0].1), steps[1..], t))
  }

  lemma {:induction false} MisplacedIff(s: State, steps: seq<(nat, Step)>, t: State)
    requires Run(s, steps, t)
    ensures t.misplaced <==> s.misplaced || Misplaces(s, steps, t)
    decreases |steps|
  {
    if steps != [] {
      MisplacedIff(Next(s, steps[0].0, steps[0].1), steps[1..], t);
    }
  }

  /**
   Over every run, a descriptor is leaked if and only if some step set the desc of a netFD that already had one or was
   closed.
   */
  lemma LeaksIff(s: State, steps: seq<(nat, Step)>, t: State)
    requires Init(s) && Run(s, steps, t)
    ensures (exists d :: Leaked(t, d)) <==> Misplaces(s, steps, t)
    ensures Misplaces(s, steps, t) <==> t.misplaced
  {
    InitInv(s);
    InvRun(s, steps, t);
    MisplacedIff(s, steps, t);
    if !t.misplaced {
      forall d ensures !Leaked(t, d) {
        if HasStatus(t, d, InUse) {
          var o :| Held(t, o) == Some(d);
        }
      }
    }
  }

  /** A leaked descriptor stays leaked, whatever is closed or recycled later. */
  lemma LeaksForGood(s: State, before: seq<(nat, Step)>, t: State, d: nat,
      after: seq<(nat, Step)>, u: State)
    requires Init(s) && Run(s, before, t) && Leaked(t, d) && Run(t, after, u)
    ensures Leaked(u, d)
  {
    InitInv(s);
    InvRun(s, before, t);
    LeakedRun(t, after, u, d);
  }

  lemma {:induction false} LeakedRun(s: State, steps: seq<(nat, Step)>, t: State, d: nat)
    requires Inv(s) && Leaked(s, d) && Run(s, steps, t)
    ensures Leaked(t, d)
    decreases |steps|
  {
    if steps != [] {
      hide Leaked;
      InvKept(s, steps[0].0, steps[0].1);
      LeakedKept(s, steps[0].0, steps[0].1, d);
      LeakedRun(Next(s, steps[0].0, steps[0].1), steps[1..], t, d);
    }
  }

  /** Over every run, no two netFDs or threads hold the same descriptor, and what they hold is in use. */
  lemma SoleOwners(s: State, steps: seq<(nat, Step)>, t: State, o: Owner, p: Owner)
    requires Init(s) && Run(s, steps, t) && Held(t, o).Some?
    ensures HasStatus(t, Held(t, o).d, InUse) && (Held(t, o) == Held(t, p) ==> o == p)
  {
    InitInv(s);
    InvRun(s, steps, t);
  }

  /** Over every run, the list of marks names no descriptor twice, and a step marks only one that is in use. */
  lemma MarkedOnce(s: State, steps: seq<(nat, Step)>, t: State, i: nat, a: Step)
    requires Init(s) && Run(s, steps, t) && Enabled(t, i, a)
    ensures NoDup(t.marks) && forall k | 0 <= k < |t.marks| :: HasStatus(t, t.marks[k], Marked)
    ensures MarkedBy(t, i, a).Some? ==> HasStatus(t, MarkedBy(t, i, a).d, InUse) && MarkedBy(t, i, a).d !in t.marks
  {
    InitInv(s);
    InvRun(s, steps, t);
  }
}
