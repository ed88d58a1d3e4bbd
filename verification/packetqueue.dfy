/**
 The queue of outbound UDP packets as sendMMsg sees it (netfd_linux.go): packets leave it from the front, each with
 one fate: it was sent, or a call that failed for another reason than a full socket dropped it. The kernel's answer
 to a sendmmsg call is a parameter.
 */
module PacketQueue {
  import opened Bytes

  const UDP_PACKET_NUM := 32

  type Packet = seq<byte>

  /** How a system call ended. */
  datatype Errno = Success | WouldBlock | Failure

  /** What the kernel answered: how many of the offered packets it took, and how the call ended. */
  datatype Answer = Answer(n: int, errno: Errno) {
    function Taken(): nat {
      if n > 0 then n else 0
    }

    /** sendmmsg reports success only if it sent something. */
    predicate Conforms() {
      errno == Success ==> n > 0
    }
  }

  function Offered(len: nat): nat {
    if len < UDP_PACKET_NUM then len else UDP_PACKET_NUM
  }

  datatype Fate = Sent | Dropped

  /** Every packet that left the queue, oldest first, with its fate; and the packets still queued. */
  datatype Ledger = Ledger(gone: seq<(Packet, Fate)>, queue: seq<Packet>) {
    /** The kernel takes packets it was offered. */
    predicate Accepts(a: Answer) {
      a.n <= Offered(|queue|)
    }

    function Pop(count: nat, fate: Fate): Ledger
      requires count <= |queue|
    {
      Ledger(gone + seq(count, i requires 0 <= i < count => (queue[i], fate)), queue[count..])
    }

    /** One sendMMsg call. */
    function Send(a: Answer): Ledger
      requires Accepts(a)
    {
      if queue == [] then this else
        var s := Pop(a.Taken(), Sent);
        if a.errno == Failure && s.queue != [] then s.Pop(1, Dropped) else s
    }
  }

  // ---- whole runs ----

  datatype Event = Append(packets: seq<Packet>) | Send(answer: Answer)

  function Step(s: Ledger, e: Event): Ledger
    requires e.Send? ==> s.Accepts(e.answer)
  {
    match e
    case Append(ps) => s.(queue := s.queue + NonEmpty(ps))
    case Send(a) => s.Send(a)
  }

  ghost predicate Run(s: Ledger, es: seq<Event>, t: Ledger)
    decreases |es|
  {
    if es == [] then s == t else
      && (es[0].Send? ==> s.Accepts(es[0].answer))
      && Run(Step(s, es[0]), es[1..], t)
  }

  lemma Starts(s: Ledger)
    ensures Run(s, [], s)
  {}

  lemma {:induction false} Extends(s: Ledger, es: seq<Event>, t: Ledger, e: Event)
    requires Run(s, es, t) && (e.Send? ==> t.Accepts(e.answer))
    ensures Run(s, es + [e], Step(t, e))
    decreases |es|
  {
    if es == [] {
      assert (es + [e])[1..] == [];
    } else {
      assert (es + [e])[1..] == es[1..] + [e];
      Extends(Step(s, es[0]), es[1..], t, e);
    }
  }

  function Appended(es: seq<Event>): (ps: seq<Packet>) {
    if es == [] then [] else (if es[0].Append? then NonEmpty(es[0].packets) else []) + Appended(es[1..])
  }

  function Names(gone: seq<(Packet, Fate)>): (ps: seq<Packet>)
    ensures |ps| == |gone|
  {
    seq(|gone|, i requires 0 <= i < |gone| => gone[i].0)
  }

  /** One call moves the first packets of the queue to the end of the gone ones. */
  lemma Moves(s: Ledger, a: Answer)
    requires s.Accepts(a)
    ensures var t := s.Send(a);
      s.gone <= t.gone && Names(t.gone) + t.queue == Names(s.gone) + s.queue
  {
    if s.queue != [] {
      var t := s.Pop(a.Taken(), Sent);
      assert Names(t.gone) + t.queue == Names(s.gone) + s.queue;
      if a.errno == Failure && t.queue != [] {
        var u := t.Pop(1, Dropped);
        assert Names(u.gone) + u.queue == Names(t.gone) + t.queue;
      }
    }
  }

  /**
   Conservation over every run: the packets sent and dropped, in order, followed by those still queued are
   exactly the packets appended; and a packet's fate never changes.
   */
  lemma {:induction false} Conserved(s: Ledger, es: seq<Event>, t: Ledger)
    requires Run(s, es, t)
    ensures Names(t.gone) + t.queue == Names(s.gone) + s.queue + Appended(es)
    ensures s.gone <= t.gone
    decreases |es|
  {
    if es != [] {
      var u := Step(s, es[0]);
      if es[0].Send? { Moves(s, es[0].answer); }
      Conserved(u, es[1..], t);
      assert Names(u.gone) + u.queue
          == Names(s.gone) + s.queue + (if es[0].Append? then NonEmpty(es[0].packets) else []);
    }
  }

  /** A call on a nonempty queue shortens it exactly when the kernel took a packet or failed other than by blocking. */
  lemma Shortens(s: Ledger, a: Answer)
    requires s.Accepts(a) && s.queue != []
    ensures |s.Send(a).queue| < |s.queue| <==> a.n > 0 || a.errno == Failure
    ensures a.Conforms() && a.errno != WouldBlock ==> |s.Send(a).queue| < |s.queue|
  {}

  /** With nothing appended, as many calls that do not block as there are packets empty the queue. */
  lemma {:induction false} Drains(s: Ledger, es: seq<Event>, t: Ledger)
    requires Run(s, es, t) && |s.queue| <= |es|
    requires forall e | e in es :: e.Send? && e.answer.Conforms() && e.answer.errno != WouldBlock
    ensures t.queue == []
    decreases |es|
  {
    if es != [] {
      assert es[0] in es;
      if s.queue != [] { Shortens(s, es[0].answer); }
      Drains(Step(s, es[0]), es[1..], t);
    }
  }
}
