/** Batch sending of UDP packets from the linked buffer (netfd_linux.go): its packet view is the packet queue. */
module PacketSend {
  import opened Bytes
  import opened BufferNode
  import opened Chain
  import opened LinkedBuffer
  import opened PacketQueue

  /** Takes packets that are there off the buffer; the error of SkipBlocks does not occur. */
  method SkipAndRelease(b: Buffer, n: nat, cleanUp: bool)
    requires b.Valid() && 0 < n <= |b.Blocks()|
    modifies b, b.Repr
    ensures b.Valid() && old(b.Repr) <= b.Repr && fresh(b.Repr - old(b.Repr)) && b.Blocks() == old(b.Blocks())[n..]
  {
    hide Buffer.Valid, Buffer.Blocks, Buffer.Contents, Buffer.Optimized, CapSum, OwnBlocks;
    b.Lengths();
    var skipErr := b.SkipBlocks(n);
    if skipErr != NoError { assert false; return; }
    b.Release(cleanUp);
  }

  /** Sends the first packets of the buffer in one call; would-block is the only error it reports. */
  method SendMMsg(b: Buffer, a: Answer, cleanUp: bool) returns (blocked: bool, ghost offered: seq<Packet>)
    requires b.Valid() && Ledger([], b.Blocks()).Accepts(a)
    modifies b, b.Repr
    ensures b.Valid() && old(b.Repr) <= b.Repr && fresh(b.Repr - old(b.Repr))
    ensures offered == old(b.Blocks())[..Offered(|old(b.Blocks())|)]
    ensures b.Blocks() == Ledger([], old(b.Blocks())).Send(a).queue
    ensures blocked <==> old(b.Blocks()) != [] && a.errno == WouldBlock
  {
    hide Buffer.Valid, Buffer.Blocks;
    ghost var queue := b.Blocks();
    var bufs := b.PeekBlocks(UDP_PACKET_NUM);
    offered := queue[..|bufs|];
    assert forall i | 0 <= i < |bufs| :: bufs[i].InBounds() && bufs[i].Bytes() == offered[i];
    blocked := false;
    b.Lengths();
    if |bufs| == 0 { return; }
    if a.n > 0 {
      SkipAndRelease(b, a.n, cleanUp);
    }
    if a.errno != Success {
      if a.errno == WouldBlock { return true, offered; }
      b.Lengths();
      if b.rlen != 0 {
        SkipAndRelease(b, 1, cleanUp);
      }
    }
  }

  /** Carries out one event on a buffer; the kernel takes no more packets than it is offered. */
  method Handle(b: Buffer, e: Event, cleanUp: bool, ghost gone: seq<(Packet, Fate)>) returns (done: Event)
    requires b.Valid()
    modifies b, b.Repr
    ensures b.Valid() && old(b.Repr) <= b.Repr && fresh(b.Repr - old(b.Repr))
    ensures done.Send? ==> Ledger(gone, old(b.Blocks())).Accepts(done.answer)
    ensures e.Append? || e.answer.n <= Offered(|old(b.Blocks())|) ==> done == e
    ensures b.Blocks() == Step(Ledger(gone, old(b.Blocks())), done).queue
  {
    hide Buffer.Valid, Buffer.Blocks, NonEmpty, Texts;
    b.Lengths();
    if e.Append? {
      var bs := ArraysOf(e.packets);
      var n := b.Writev(false, bs);
      done := e;
    } else {
      var bufs := b.PeekBlocks(UDP_PACKET_NUM);
      b.Lengths();
      done := Send(Answer(if e.answer.n <= |bufs| then e.answer.n else |bufs|, e.answer.errno));
      var blocked, offered := SendMMsg(b, done.answer, cleanUp);
    }
  }

  /**
   Every list of appends and sends on a new buffer is a run of the packet queue. Its events are the given ones, but
   for answers that claim more packets than were offered.
   */
  method RunPackets(es: seq<Event>, cleanUps: seq<bool>) returns (b: Buffer, done: seq<Event>, ghost t: Ledger)
    requires |cleanUps| == |es|
    ensures b.Valid() && |done| == |es| && Run(Ledger([], []), done, t) && t.queue == b.Blocks()
  {
    hide Buffer.Valid, Buffer.Blocks, Run, Step;
    b := new Buffer();
    done, t := [], Ledger([], []);
    Starts(t);
    for i := 0 to |es|
      invariant b.Valid() && fresh(b) && fresh(b.Repr)
      invariant |done| == i && Run(Ledger([], []), done, t) && t.queue == b.Blocks()
    {
      var e := Handle(b, es[i], cleanUps[i], t.gone);
      Extends(Ledger([], []), done, t, e);
      done, t := done + [e], Step(t, e);
    }
  }
}
