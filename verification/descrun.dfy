/**
 The calls of netfd.go on netFD and descriptor objects, carried out in any order by any number of threads: they are
 runs of the ownership protocol.
 */
module DescRun {
  import opened DescCache
  import opened DescOwners
  import N = NetFd

  /** Where a thread stands in Schedule, with the descriptor it has taken. */
  datatype At = Resting | Unset(f: nat) | Having(f: nat, desc: Desc) | Set(f: nat)

  datatype Call =
    | CallLook(f: nat) | CallPrepare(n: nat, havePoller: bool) | CallAttach | CallControl | CallClose(f: nat) | CallFree

  class World {
    const dc: Cache
    const fds: seq<N.NetFD>
    var at: seq<At>
    ghost var misplaced: bool

    ghost function FdOf(f: nat): Fd
      requires f < |fds|
      reads fds
    {
      Fd(if fds[f].desc == null then None else Some(fds[f].desc.index), fds[f].closed)
    }

    ghost function PcOf(a: At): Pc {
      match a
      case Resting => Idle
      case Unset(f) => Looked(f)
      case Having(f, d) => Taken(f, d.index)
      case Set(f) => Attached(f)
    }

    ghost function Abs(): (s: State)
      reads this, dc, fds
      ensures |s.fds| == |fds| && |s.pc| == |at|
      ensures forall f | 0 <= f < |fds| :: s.fds[f] == FdOf(f)
      ensures forall i | 0 <= i < |at| :: s.pc[i] == PcOf(at[i])
      ensures s.status == dc.status && s.marks == dc.freeList && s.misplaced == misplaced
    {
      State(seq(|fds|, f requires 0 <= f < |fds| reads fds => FdOf(f)),
            seq(|at|, i requires 0 <= i < |at| reads this => PcOf(at[i])),
            dc.status, dc.freeList, misplaced)
    }

    /** The netFDs are different objects, and descriptors are those of the cache. */
    ghost predicate Valid()
      reads this, dc, dc.cache`next, dc.cache`fd, dc.cache`bound, fds
    {
      && Inv(Abs())
      && (forall f, g | 0 <= f < g < |fds| :: fds[f] != fds[g])
      && dc.Valid()
      && (forall f | 0 <= f < |fds| :: fds[f].Valid(dc))
      && (forall i | 0 <= i < |at| && at[i].Having? :: dc.Has(at[i].desc, InUse))
    }

    constructor (nfds: nat, threads: nat)
      ensures Valid() && Init(Abs()) && |fds| == nfds && |at| == threads
      ensures fresh(fds) && fresh(dc) && dc.cache == []
    {
      var c := new Cache();
      var fs: seq<N.NetFD> := [];
      for i := 0 to nfds
        invariant |fs| == i && fresh(fs) && c.Valid() && c.status == [] && c.freeList == []
        invariant forall j | 0 <= j < i :: fs[j].desc == null && !fs[j].closed && fs[j].marks == 0
        invariant forall f, g | 0 <= f < g < |fs| :: fs[f] != fs[g]
      {
        var nfd := new N.NetFD(i);
        fs := fs + [nfd];
      }
      dc, fds, at, misplaced := c, fs, seq(threads, _ => Resting), false;
      new;
      InitInv(Abs());
    }

    /** What netFDs and threads hold is in the cache, and with the invariant also in use. */
    ghost predicate Cached()
      reads this, dc, fds
    {
      && |dc.status| == |dc.cache|
      && (forall f | 0 <= f < |fds| && fds[f].desc != null ::
            fds[f].desc.index < |dc.cache| && dc.cache[fds[f].desc.index] == fds[f].desc)
      && (forall i | 0 <= i < |at| && at[i].Having? ::
            at[i].desc.index < |dc.cache| && dc.cache[at[i].desc.index] == at[i].desc)
    }

    lemma HeldInUse()
      requires Inv(Abs()) && Cached()
      ensures forall f | 0 <= f < |fds| && fds[f].desc != null :: dc.Has(fds[f].desc, InUse)
      ensures forall i | 0 <= i < |at| && at[i].Having? :: dc.Has(at[i].desc, InUse)
    {
      forall f | 0 <= f < |fds| && fds[f].desc != null ensures dc.Has(fds[f].desc, InUse) {
        assert Held(Abs(), Net(f)) == Some(fds[f].desc.index);
      }
      forall i | 0 <= i < |at| && at[i].Having? ensures dc.Has(at[i].desc, InUse) {
        assert Held(Abs(), Thread(i)) == Some(at[i].desc.index);
      }
    }

    lemma InRange(i: nat)
      requires Valid() && i < |at| && !at[i].Resting?
      ensures at[i].f < |fds|
    {
      assert !Abs().pc[i].Idle?;
    }

    /** The first look of Schedule. */
    method Look(i: nat, f: nat)
      requires Valid() && Enabled(Abs(), i, Step.Look(f))
      modifies this`at
      ensures Valid() && Abs() == Next(old(Abs()), i, Step.Look(f))
    {
      hide Cache.Valid, Inv;
      InvKept(Abs(), i, Step.Look(f));
      at := at[i := if fds[f].desc == null then Unset(f) else Resting];
      assert Abs() == Next(old(Abs()), i, Step.Look(f));
    }

    method Attach(i: nat)
      requires Valid() && Enabled(Abs(), i, Step.Attach)
      modifies this`at, this`misplaced, fds`desc
      ensures Valid() && Abs() == Next(old(Abs()), i, Step.Attach)
    {
      hide Cache.Valid, Inv;
      InvKept(Abs(), i, Step.Attach);
      var f, d := at[i].f, at[i].desc;
      misplaced := misplaced || fds[f].closed || fds[f].desc != null;
      fds[f].Attach(d);
      at := at[i := Set(f)];
      ghost var t := Next(old(Abs()), i, Step.Attach);
      assert forall g | 0 <= g < |fds| :: t.fds[g] == FdOf(g);
      assert Abs() == t;
    }

    method Control(i: nat)
      requires Valid() && Enabled(Abs(), i, Step.Control)
      modifies this`at, dc.cache`interest
      ensures Valid() && Abs() == Next(old(Abs()), i, Step.Control)
    {
      hide Cache.Valid, Inv;
      assert at[i].Set? by { assert Abs().pc[i] == PcOf(at[i]); }
      InRange(i);
      InvKept(Abs(), i, Step.Control);
      var f := at[i].f;
      var err := fds[f].Control(N.READABLE);
      at := at[i := Resting];
      assert Abs() == Next(old(Abs()), i, Step.Control);
    }

    method Close(i: nat, f: nat)
      requires Valid() && Enabled(Abs(), i, Step.Close(f))
      modifies fds[f], dc`freeList, dc`status, dc.cache
      ensures Valid() && Abs() == Next(old(Abs()), i, Step.Close(f))
    {
      hide Cache.Valid, Inv;
      InvKept(Abs(), i, Step.Close(f));
      fds[f].Close(dc);
      ghost var t := Next(old(Abs()), i, Step.Close(f));
      assert forall g | 0 <= g < |fds| :: t.fds[g] == FdOf(g);
      assert Abs() == t;
      dc.Sizes();
      HeldInUse();
    }

    method FreeAll(i: nat)
      requires Valid() && Enabled(Abs(), i, Step.FreeAll)
      modifies dc`first, dc`status, dc`chain, dc`freeList, dc.cache
      ensures Valid() && Abs() == Next(old(Abs()), i, Step.FreeAll)
    {
      hide Cache.Valid, Inv;
      InvKept(Abs(), i, Step.FreeAll);
      dc.FreeAll();
      assert Abs() == Next(old(Abs()), i, Step.FreeAll);
      dc.Sizes();
      HeldInUse();
    }

    /** What a Prepare that took the k-th descriptor did, as steps of the protocol. */
    lemma Taking(s: State, i: nat, after: seq<Status>, k: nat, havePoller: bool)
        returns (steps: seq<(nat, Step)>, t: State)
      requires Inv(s) && i < |s.pc| && s.pc[i].Looked?
      requires |s.status| <= |after| && k < |after| && (k < |s.status| ==> s.status[k] == Free)
      requires after[k] == if havePoller then InUse else Marked
      requires forall j | 0 <= j < |after| && j != k :: after[j] == if j < |s.status| then s.status[j] else Free
      ensures Run(s, steps, t) && Inv(t)
      ensures t == s.(status := after, pc := s.pc[i := if havePoller then Taken(s.pc[i].f, k) else Idle],
                      marks := s.marks + if havePoller then [] else [k])
    {
      hide Inv, Run;
      var a := Take(|after| - |s.status|, k);
      var ext := Extended(s.status, |after| - |s.status|);
      t := Next(s, i, a);
      OneStep(s, i, a);
      InvKept(s, i, a);
      steps := [(i, a)];
      if havePoller {
        assert after == ext[k := InUse];
      } else {
        assert after == ext[k := InUse][k := Marked];
        OneStep(t, i, Refuse);
        InvKept(t, i, Refuse);
        Join(s, steps, t, [(i, Refuse)], Next(t, i, Refuse));
        steps, t := steps + [(i, Refuse)], Next(t, i, Refuse);
      }
    }

    /** Takes a descriptor and binds it to a poller, or marks it at once if there is none. */
    method Prepare(i: nat, n: nat, havePoller: bool) returns (ghost steps: seq<(nat, Step)>)
      requires Valid() && i < |at| && at[i].Unset? && n > 0
      modifies this`at, dc, dc.cache
      ensures Valid() && Run(old(Abs()), steps, Abs()) && |at| == |old(at)|
      ensures old(dc.cache) <= dc.cache && forall j | |old(dc.cache)| <= j < |dc.cache| :: fresh(dc.cache[j])
    {
      hide Cache.Valid, Inv, Run;
      ghost var s := Abs();
      var f := at[i].f;
      assert f < |fds| by { InRange(i); }
      dc.Sizes();
      var d, k := fds[f].Prepare(dc, n, havePoller);
      ghost var t;
      steps, t := Taking(s, i, dc.status, k, havePoller);
      at := at[i := if d != null then Having(f, d) else Resting];
      dc.Sizes();
      assert Abs() == t;
    }

    lemma Apart()
      requires Valid()
      ensures forall f, g | 0 <= f < g < |fds| && fds[f].desc != null :: fds[f].desc != fds[g].desc
      ensures NoDup(dc.freeList)
    {
      forall f, g | 0 <= f < g < |fds| && fds[f].desc != null ensures fds[f].desc != fds[g].desc {
        assert Held(Abs(), Net(f)) == Some(fds[f].desc.index);
        if fds[g].desc != null { assert Held(Abs(), Net(g)) == Some(fds[g].desc.index); }
      }
    }

    /** Whether a thread can make a call, as the source demands. */
    predicate CanCall(i: nat, c: Call)
      reads this
    {
      && i < |at|
      && match c {
           case CallLook(f) => at[i].Resting? && f < |fds|
           case CallPrepare(n, _) => at[i].Unset? && n > 0
           case CallAttach => at[i].Having?
           case CallControl => at[i].Set?
           case CallClose(f) => at[i].Resting? && f < |fds|
           case CallFree => at[i].Resting?
         }
    }

    /** One section of one call. */
    method Handle(i: nat, c: Call) returns (ghost steps: seq<(nat, Step)>)
      requires Valid() && CanCall(i, c)
      modifies this, fds, dc, dc.cache
      ensures Valid() && Run(old(Abs()), steps, Abs()) && |at| == |old(at)|
      ensures old(dc.cache) <= dc.cache && forall j | |old(dc.cache)| <= j < |dc.cache| :: fresh(dc.cache[j])
    {
      hide Cache.Valid, Inv, Run;
      ghost var s := Abs();
      match c
      case CallLook(f) => Look(i, f); steps := [(i, Step.Look(f))]; OneStep(s, i, Step.Look(f));
      case CallPrepare(n, havePoller) => steps := Prepare(i, n, havePoller);
      case CallAttach => InRange(i); Attach(i); steps := [(i, Step.Attach)]; OneStep(s, i, Step.Attach);
      case CallControl => Control(i); steps := [(i, Step.Control)]; OneStep(s, i, Step.Control);
      case CallClose(f) => Close(i, f); steps := [(i, Step.Close(f))]; OneStep(s, i, Step.Close(f));
      case CallFree => FreeAll(i); steps := [(i, Step.FreeAll)]; OneStep(s, i, Step.FreeAll);
    }
  }
  /**
   Any list of calls on any number of netFDs and threads; a call that its thread cannot make is passed over. A
   descriptor is leaked if and only if one was attached to a netFD that had one or was closed, no two netFDs have the
   same descriptor, and the list of descriptors to be freed names none twice.
   */
  method CarryOut(nfds: nat, threads: nat, calls: seq<(nat, Call)>)
      returns (w: World, ghost s: State, ghost steps: seq<(nat, Step)>)
    ensures w.Valid() && Init(s) && Run(s, steps, w.Abs()) && |w.fds| == nfds && |w.at| == threads
    ensures (exists d :: Leaked(w.Abs(), d)) <==> Misplaces(s, steps, w.Abs())
    ensures forall f, g | 0 <= f < g < nfds && w.fds[f].desc != null :: w.fds[f].desc != w.fds[g].desc
    ensures NoDup(w.dc.freeList)
  {
    w := new World(nfds, threads);
    s, steps := w.Abs(), [];
    assert Run(s, steps, s);
    hide World.Valid, World.Abs, Cache.Valid, Inv, Run, Init;
    for k := 0 to |calls|
      invariant w.Valid() && Run(s, steps, w.Abs()) && |w.at| == threads
      invariant fresh(w.fds) && fresh(w.dc) && fresh(w.dc.cache)
    {
      var (i, c) := calls[k];
      if w.CanCall(i, c) {
        ghost var t := w.Abs();
        ghost var more := w.Handle(i, c);
        Join(s, steps, t, more, w.Abs());
        steps := steps + more;
      }
    }
    LeaksIff(s, steps, w.Abs());
    w.Apart();
  }
}
