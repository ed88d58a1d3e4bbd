/**
 A network file descriptor and its poller descriptor (netfd.go). Control and Close run under the netFD's mutex.
 Schedule does not: it looks at desc without it, prepares a descriptor, and takes the mutex only to set desc and again
 to register interest, so that other calls can come in between. What the poller is asked to monitor is recorded in the
 descriptor.
 */
module NetFd {
  import opened DescCache

  const READABLE := 1
  const DETACH := 0

  datatype Error = NoError | ErrConnClosed | ErrNotAdded | ErrAlreadyAdded | ErrInvalidDesc | ErrNoPoller

  class NetFD {
    const fd: int
    var desc: Desc?
    var closed: bool
    /** How often this netFD has given its descriptor back. */
    ghost var marks: nat

    constructor (fd: int)
      ensures this.fd == fd && desc == null && !closed && marks == 0
    {
      this.fd, desc, closed, marks := fd, null, false, 0;
    }

    /** The descriptor it holds is in use, and it has given back at most one, by closing. */
    ghost predicate Valid(dc: Cache)
      reads this, dc, dc.cache`next, dc.cache`fd, dc.cache`bound
    {
      && dc.Valid() && (desc != null ==> dc.Has(desc, InUse))
      && (if closed then marks <= 1 else marks == 0)
    }

    /** Registers interest in an event; a closed netFD refuses, and does not touch any descriptor. */
    method Control(event: int) returns (err: Error)
      modifies (if desc == null then {} else {desc})`interest
      ensures err == if closed then ErrConnClosed else if desc == null then ErrNotAdded
                     else if !desc.bound then ErrInvalidDesc else NoError
      ensures desc != null ==> desc.fd == old(desc.fd) && desc.bound == old(desc.bound) && desc.next == old(desc.next)
      ensures desc != null ==> desc.interest == if err == NoError then event else old(desc.interest)
    {
      if closed { return ErrConnClosed; }
      if desc == null { return ErrNotAdded; }
      if !desc.bound { return ErrInvalidDesc; }
      desc.interest := event;
      err := NoError;
    }

    /** The first call detaches the descriptor and marks it free; later calls do nothing. */
    method Close(dc: Cache)
      requires Valid(dc)
      modifies this`desc, this`closed, this`marks, dc`freeList, dc`status, desc
      ensures Valid(dc) && closed
      ensures old(closed) ==> desc == old(desc) && marks == old(marks)
      ensures !old(closed) ==> desc == null && marks == if old(desc) == null then 0 else 1
      ensures !old(closed) && old(desc) != null ==>
        && dc.Has(old(desc), Marked) && dc.status == old(dc.status)[old(desc).index := Marked]
        && dc.freeList == old(dc.freeList) + [old(desc).index]
      ensures old(closed) || old(desc) == null ==> dc.status == old(dc.status) && dc.freeList == old(dc.freeList)
    {
      if closed { return; }
      closed := true;
      if desc != null {
        hide Cache.Valid;
        desc.interest := DETACH;
        dc.InUseWritten(desc);
        dc.MarkFree(desc);
        desc, marks := null, marks + 1;
      }
    }

    /**
     What Schedule does before it touches the netFD: takes a descriptor, the k-th of the cache, and binds it to a
     poller, or marks it if there is none. Descriptors of others are left alone.
     */
    method Prepare(dc: Cache, n: nat, havePoller: bool) returns (d: Desc?, ghost k: nat)
      requires dc.Valid() && n > 0
      modifies dc, dc.cache
      ensures dc.Valid() && old(dc.cache) <= dc.cache && (d != null <==> havePoller)
      ensures forall i | |old(dc.cache)| <= i < |dc.cache| :: fresh(dc.cache[i])
      ensures d != null ==> dc.Has(d, InUse) && d.fd == fd && d.bound
      ensures d != null ==> d.index == k && (fresh(d) || (k < |old(dc.status)| && old(dc.status)[k] == Free))
      ensures forall i | 0 <= i < |old(dc.cache)| && old(dc.status)[i] != Free ::
        unchanged(old(dc.cache)[i]) && dc.status[i] == old(dc.status)[i]
      ensures k < |dc.status| && |old(dc.status)| <= |dc.status| && (k < |old(dc.status)| ==> old(dc.status)[k] == Free)
      ensures dc.status[k] == (if havePoller then InUse else Marked)
      ensures forall i | 0 <= i < |dc.status| && i != k ::
        dc.status[i] == if i < |old(dc.status)| then old(dc.status)[i] else Free
      ensures dc.freeList == old(dc.freeList) + if havePoller then [] else [k]
    {
      hide Cache.Valid;
      dc.Sizes();
      d := dc.Alloc(n);
      k := d.index;
      dc.Sizes();
      label taken:
      d.fd := fd;
      if !havePoller {
        dc.InUseWritten@taken(d);
        dc.MarkFree(d);
        dc.Sizes();
        return null, k;
      }
      d.bound := true;
      dc.InUseWritten@taken(d);
      dc.Sizes();
    }

    /** The section that sets desc: whatever was there before is no longer known to the netFD. */
    method Attach(d: Desc)
      modifies this`desc
      ensures desc == d
    {
      desc := d;
    }

    /** Takes a descriptor, binds it to a poller and monitors readability, when no other call comes in between. */
    method Schedule(dc: Cache, n: nat, havePoller: bool) returns (err: Error)
      requires Valid(dc) && n > 0
      modifies this`desc, dc, dc.cache
      ensures Valid(dc) && closed == old(closed) && marks == old(marks) && old(dc.cache) <= dc.cache
      ensures old(desc) != null ==> err == ErrAlreadyAdded && desc == old(desc)
      ensures old(desc) == null ==>
        err == if !havePoller then ErrNoPoller else if closed then ErrConnClosed else NoError
      ensures old(desc) == null ==> (desc != null <==> havePoller)
      ensures err == NoError ==> desc != null && desc.fd == fd && desc.bound && desc.interest == READABLE
      ensures old(desc) == null && desc != null ==>
        fresh(desc) || (desc.index < |old(dc.status)| && old(dc.status)[desc.index] == Free)
      ensures forall i | 0 <= i < |old(dc.cache)| && old(dc.status)[i] != Free ::
        unchanged(old(dc.cache)[i]) && dc.status[i] == old(dc.status)[i]
    {
      hide Cache.Valid;
      if desc != null { return ErrAlreadyAdded; }
      dc.Sizes();
      var d, _ := Prepare(dc, n, havePoller);
      if d == null { return ErrNoPoller; }
      label prepared:
      Attach(d);
      err := Control(READABLE);
      dc.InUseWritten@prepared(d);
      dc.Sizes();
    }
  }

  /** A Close between the two halves of Schedule leaves a descriptor in use that no later Close gives back. */
  method CloseWhileScheduling(fd: int, n: nat) returns (nfd: NetFD, dc: Cache, err: Error)
    requires n > 0
    ensures nfd.closed && nfd.desc != null && dc.Has(nfd.desc, InUse) && err == ErrConnClosed
  {
    hide Cache.Valid;
    dc := new Cache();
    dc.Sizes();
    nfd := new NetFD(fd);
    var d, _ := nfd.Prepare(dc, n, true);
    nfd.Close(dc);
    nfd.Attach(d);
    label attached:
    err := nfd.Control(READABLE);
    dc.InUseWritten@attached(d);
    nfd.Close(dc);
  }

  /** Two Schedule calls that both found desc unset leave the first one's descriptor in use and unknown to the netFD. */
  method ScheduleTwice(fd: int, n: nat) returns (nfd: NetFD, dc: Cache, lost: Desc)
    requires n > 0
    ensures nfd.closed && nfd.desc == null && dc.Has(lost, InUse)
  {
    hide Cache.Valid;
    dc := new Cache();
    dc.Sizes();
    nfd := new NetFD(fd);
    var d1, _ := nfd.Prepare(dc, n, true);
    var d2, _ := nfd.Prepare(dc, n, true);
    dc.Sizes();
    nfd.Attach(d1);
    nfd.Attach(d2);
    nfd.Close(dc);
    lost := d1;
  }
}
