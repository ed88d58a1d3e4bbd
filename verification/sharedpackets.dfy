/**
 The linked buffer as a packet queue under one reader and one writer with no lock in common
 (internal/buffer/buffer.go). The writer only links slices, as UDP does; the reader uses only PeekBlocks, ReadBlock
 and SkipBlocks. PeekBlocks counts down from the rlen it found; ReadBlock and SkipBlocks take whole nodes and count
 nothing. Steps of the two sides interleave freely, as in SharedBuffer.
 */
module SharedPackets {
  import opened Bytes
  import SB = SharedBuffer

  type Packet = seq<byte>
  type Node = SB.Node

  /** The writer has wlock and has linked ahead bytes that are not in rlen yet. */
  datatype Writer = NotWriting | Writing(ahead: nat)

  /**
   The reader has rlock and stands at node cur. A peek wants so many blocks, may give rest more bytes and has
   collected got; upto packets were published when it began. ReadBlock takes one block and SkipBlocks n; start were
   gone when they began.
   */
  datatype Reader =
    | NotReading
    | Peeking(places: nat, upto: nat, rest: int, cur: nat, got: seq<Packet>)
    | Taking(n: nat, start: nat, cur: nat, got: seq<Packet>)

  datatype State = State(
    nodes: seq<Node>, head: nat, rnode: nat, wnode: nat,
    rlen: int,
    linked: seq<Packet>,      // all nonempty slices ever linked, in order
    published: nat,           // how many of them were added to rlen
    gone: nat,                // how many of them were taken
    delivered: seq<Packet>,   // packets of finished ReadBlock and SkipBlocks calls
    writer: Writer, reader: Reader)

  datatype Step =
    | BeginWrite | Link(i: nat, bs: Packet) | Attach(bs: Packet) | Advance(i: nat) | Publish | EndWrite
    | BeginPeek(places: nat) | PeekHop | PeekBlock | EndPeek
    | BeginTake(n: nat) | TakeHop | TakeNode | SetRnode | EndTake | FreeHead
    | Rewind | CleanUp(mem: seq<byte>)

  predicate LastWritten(s: State, i: nat) {
    forall j | i < j < |s.nodes| :: s.nodes[j].w == 0
  }

  /** The reader's node. */
  predicate At(s: State, i: nat, empty: bool) {
    i < |s.nodes| && s.nodes[i].Ok() && (s.nodes[i].r == s.nodes[i].w <==> empty)
  }

  predicate WantsBlock(s: State) {
    s.reader.Peeking? && |s.reader.got| < s.reader.places && s.reader.rest > 0
  }

  predicate Enabled(s: State, a: Step) {
    match a
    case BeginWrite => s.writer.NotWriting?
    case Link(i, _) => s.writer.Writing? && s.wnode <= i < |s.nodes| && s.nodes[i].w == 0 && LastWritten(s, i)
    case Attach(bs) => s.writer.Writing? && bs != []
    case Advance(i) => s.writer.Writing? && s.wnode <= i < |s.nodes|
    case Publish => s.writer.Writing? && LastWritten(s, s.wnode)
    case EndWrite => s.writer.Writing? && s.writer.ahead == 0
    case BeginPeek(_) => s.reader.NotReading?
    case PeekHop => WantsBlock(s) && At(s, s.reader.cur, true)
    case PeekBlock => WantsBlock(s) && At(s, s.reader.cur, false)
    case EndPeek => s.reader.Peeking? && (|s.reader.got| >= s.reader.places || s.reader.rest <= 0)
    case BeginTake(n) => s.reader.NotReading? && s.rlen > 0 && n <= s.published - s.gone
    case TakeHop =>
      && s.reader.Taking? && |s.reader.got| < s.reader.n
      && At(s, s.reader.cur, true) && s.reader.cur + 1 < |s.nodes|
    case TakeNode => s.reader.Taking? && |s.reader.got| < s.reader.n && At(s, s.reader.cur, false)
    case SetRnode => s.reader.Taking?
    case EndTake => s.reader.Taking? && |s.reader.got| == s.reader.n && s.rnode == s.reader.cur
    case FreeHead => s.reader.NotReading? && s.head < s.rnode
    case Rewind => s.reader.NotReading? && s.writer.NotWriting? && s.rlen == 0 && s.wnode < |s.nodes|
    case CleanUp(_) => s.reader.NotReading? && s.writer.NotWriting? && s.rlen == 0
  }

  function Next(s: State, a: Step): State
    requires Enabled(s, a)
  {
    match a
    case BeginWrite => s.(writer := Writing(0))
    case Link(i, bs) =>
      s.(nodes := s.nodes[i := s.nodes[i].(mem := bs, w := |bs|)],
         linked := s.linked + NonEmpty([bs]), writer := Writing(s.writer.ahead + |bs|))
    case Attach(bs) =>
      s.(nodes := s.nodes + [SB.Node(bs, 0, |bs|)],
         linked := s.linked + NonEmpty([bs]), writer := Writing(s.writer.ahead + |bs|))
    case Advance(i) => s.(wnode := i)
    case Publish => s.(rlen := s.rlen + s.writer.ahead, published := |s.linked|, writer := Writing(0))
    case EndWrite => s.(writer := NotWriting)
    case BeginPeek(places) => s.(reader := Peeking(places, s.published, s.rlen, s.rnode, []))
    case PeekHop => s.(reader := Peeking(s.reader.places, s.reader.upto, s.reader.rest, s.reader.cur + 1, s.reader.got))
    case PeekBlock =>
      var rd, n := s.reader, s.nodes[s.reader.cur];
      var l := if n.w - n.r > rd.rest then rd.rest else n.w - n.r;
      s.(reader := Peeking(rd.places, rd.upto, rd.rest - l, rd.cur + 1, rd.got + [n.mem[n.r..n.r + l]]))
    case EndPeek => s.(reader := NotReading)
    case BeginTake(n) => s.(reader := Taking(n, s.gone, s.rnode, []))
    case TakeHop => s.(reader := Taking(s.reader.n, s.reader.start, s.reader.cur + 1, s.reader.got))
    case TakeNode =>
      var rd, n := s.reader, s.nodes[s.reader.cur];
      s.(nodes := s.nodes[rd.cur := n.(r := n.w)], gone := s.gone + 1,
         reader := Taking(rd.n, rd.start, rd.cur, rd.got + [n.Data()]))
    case SetRnode => s.(rnode := s.reader.cur)
    case EndTake =>
      s.(rlen := s.rlen - |Flat(s.reader.got)|, delivered := s.delivered + s.reader.got, reader := NotReading)
    case FreeHead => s.(head := s.head + 1)
    case Rewind => s.(nodes := s.nodes[s.wnode := s.nodes[s.wnode].(r := 0, w := 0)])
    case CleanUp(mem) =>
      s.(nodes := s.nodes + [SB.Node(mem, 0, 0)], head := |s.nodes|, rnode := |s.nodes|, wnode := |s.nodes|)
  }

  // ---- the chain as packets ----

  /** The packets in nodes from i on. */
  ghost function Queued(ns: seq<Node>, i: nat): seq<Packet>
    requires SB.AllOk(ns) && i <= |ns|
  {
    NonEmpty(SB.Datas(ns[i..]))
  }

  ghost function Ahead(s: State): nat {
    if s.writer.Writing? then s.writer.ahead else 0
  }

  /** The packets taken by calls that have finished. */
  ghost function Settled(s: State): nat {
    if s.reader.Taking? then s.reader.start else s.gone
  }

  /** The cursors are in order; nothing is queued before rnode, and only unpublished packets behind wnode. */
  ghost predicate Cursors(s: State) {
    && SB.AllOk(s.nodes) && s.head <= s.rnode <= s.wnode < |s.nodes|
    && (forall i | 0 <= i < s.rnode :: s.nodes[i].r == s.nodes[i].w)
    && |Queued(s.nodes, s.wnode + 1)| <= |s.linked| - s.published
  }

  /**
   The queued packets are the linked ones that were not taken, and the published bytes end at the end of a packet:
   what is ahead of rlen is exactly the packets that were linked since.
   */
  ghost predicate Counts(s: State) {
    && SB.AllOk(s.nodes) && Settled(s) <= s.gone <= s.published <= |s.linked|
    && (forall p | p in s.linked :: p != [])
    && Queued(s.nodes, 0) == s.linked[s.gone..]
    && Ahead(s) == |Flat(s.linked[s.published..])|
    && s.rlen == |Flat(s.linked[Settled(s)..s.published])|
    && s.delivered == s.linked[..Settled(s)]
  }

  /** A reader has whole published packets, and stands before the next one. */
  ghost predicate Progress(s: State) {
    SB.AllOk(s.nodes) &&
    match s.reader
    case NotReading => true
    case Peeking(_, upto, rest, cur, got) =>
      && s.gone + |got| <= upto <= s.published <= |s.linked| && got == s.linked[s.gone..s.gone + |got|]
      && rest == |Flat(s.linked[s.gone + |got|..upto])|
      && s.rnode <= cur <= s.wnode + 1 <= |s.nodes| && (cur == s.wnode + 1 ==> s.nodes[s.wnode].w > 0)
      && Queued(s.nodes, cur) == s.linked[s.gone + |got|..]
    case Taking(n, start, cur, got) =>
      && s.gone == start + |got| && |got| <= n && start + n <= s.published <= |s.linked|
      && got == s.linked[start..s.gone]
      && s.rnode <= cur <= s.wnode < |s.nodes| && forall i | 0 <= i < cur :: s.nodes[i].r == s.nodes[i].w
  }

  ghost predicate Inv(s: State) {
    Cursors(s) && Counts(s) && Progress(s)
  }

  // ---- how steps change the queue ----

  lemma QueuedAt(ns: seq<Node>, i: nat)
    requires SB.AllOk(ns) && i < |ns|
    ensures Queued(ns, i) == NonEmpty([ns[i].Data()]) + Queued(ns, i + 1)
  {
    hide NonEmpty;
    SB.DatasFrom(ns, i);
    SB.DatasFrom(ns, i + 1);
    assert SB.Datas(ns)[i..] == [ns[i].Data()] + SB.Datas(ns)[i + 1..];
    NonEmptyConcat([ns[i].Data()], SB.Datas(ns)[i + 1..]);
  }

  lemma {:induction false} QueuedSkip(ns: seq<Node>, a: nat, b: nat)
    requires SB.AllOk(ns) && a <= b <= |ns| && forall i | a <= i < b :: ns[i].r == ns[i].w
    ensures Queued(ns, a) == Queued(ns, b)
    decreases b - a
  {
    hide NonEmpty;
    if a < b {
      QueuedAt(ns, a);
      Single(ns[a].Data());
      QueuedSkip(ns, a + 1, b);
    }
  }

  lemma {:induction false} QueuedShorter(ns: seq<Node>, a: nat, b: nat)
    requires SB.AllOk(ns) && a <= b <= |ns|
    ensures |Queued(ns, b)| <= |Queued(ns, a)|
    decreases b - a
  {
    if a < b {
      QueuedAt(ns, a);
      QueuedShorter(ns, a + 1, b);
    }
  }

  lemma DatasSet(ns: seq<Node>, i: nat, n: Node, j: nat)
    requires SB.AllOk(ns) && j <= i < |ns| && n.Ok()
    ensures SB.AllOk(ns[i := n]) && SB.Datas(ns[i := n][j..]) == SB.Datas(ns[j..])[i - j := n.Data()]
  {
    assert ns[i := n][j..] == ns[j..][i - j := n];
  }

  lemma LaterEmpty(ns: seq<Node>, i: nat, j: nat)
    requires SB.AllOk(ns) && j <= i <= |ns| && forall k | i <= k < |ns| :: ns[k].w == 0
    ensures AllEmpty(SB.Datas(ns[j..])[i - j..])
  {
    var later := SB.Datas(ns[j..])[i - j..];
    forall k | 0 <= k < |later| ensures later[k] == [] {
      assert later[k] == ns[j..][i - j + k].Data();
      assert ns[i + k].w == 0;
    }
  }

  lemma QueuedLink(ns: seq<Node>, i: nat, n: Node, j: nat)
    requires SB.AllOk(ns) && j <= i < |ns| && ns[i].w == 0 && n.Ok() && forall k | i < k < |ns| :: ns[k].w == 0
    ensures SB.AllOk(ns[i := n]) && Queued(ns[i := n], j) == Queued(ns, j) + NonEmpty([n.Data()])
  {
    hide NonEmpty, AllEmpty, SB.Datas;
    DatasSet(ns, i, n, j);
    LaterEmpty(ns, i, j);
    NonEmptyExtend(SB.Datas(ns[j..]), i - j, n.Data());
  }

  lemma QueuedAttach(ns: seq<Node>, n: Node, j: nat)
    requires SB.AllOk(ns) && j <= |ns| && n.Ok()
    ensures SB.AllOk(ns + [n]) && Queued(ns + [n], j) == Queued(ns, j) + NonEmpty([n.Data()])
  {
    hide NonEmpty;
    assert SB.Datas((ns + [n])[j..]) == SB.Datas(ns[j..]) + [n.Data()];
    NonEmptyConcat(SB.Datas(ns[j..]), [n.Data()]);
  }

  lemma QueuedTake(ns: seq<Node>, i: nat)
    requires SB.AllOk(ns) && i < |ns| && ns[i].r < ns[i].w && forall j | 0 <= j < i :: ns[j].r == ns[j].w
    ensures SB.AllOk(ns[i := ns[i].(r := ns[i].w)])
    ensures Queued(ns, 0) == [ns[i].Data()] + Queued(ns[i := ns[i].(r := ns[i].w)], 0)
  {
    hide NonEmpty;
    var ms := ns[i := ns[i].(r := ns[i].w)];
    var ps := SB.Datas(ns);
    assert ns[0..] == ns && ms[0..] == ms;
    assert SB.Datas(ms) == ps[i := []];
    NonEmptyConsume(ps, i);
  }

  lemma {:induction false} NothingQueued(ns: seq<Node>, j: nat)
    requires SB.AllOk(ns) && j <= |ns| && forall k | j <= k < |ns| :: ns[k].r == ns[k].w
    ensures Queued(ns, j) == []
  {
    QueuedSkip(ns, j, |ns|);
  }

  lemma {:induction false} QueueEmpty(ns: seq<Node>, i: nat, j: nat)
    requires SB.AllOk(ns) && i <= j < |ns| && Queued(ns, i) == []
    ensures ns[j].r == ns[j].w
    decreases j - i
  {
    hide NonEmpty;
    QueuedAt(ns, i);
    Single(ns[i].Data());
    if i < j { QueueEmpty(ns, i + 1, j); }
  }

  lemma FlatParts(ps: seq<Packet>, a: nat, b: nat, c: nat)
    requires a <= b <= c <= |ps|
    ensures Flat(ps[a..c]) == Flat(ps[a..b]) + Flat(ps[b..c])
  {
    hide Flat;
    assert ps[a..c] == ps[a..b] + ps[b..c];
    FlatConcat(ps[a..b], ps[b..c]);
  }

  /** Nonempty packets have bytes exactly when there are any. */
  lemma FlatSome(ps: seq<Packet>, a: nat, b: nat)
    requires a <= b <= |ps| && forall p | p in ps :: p != []
    ensures Flat(ps[a..b]) == [] <==> a == b
  {
    if a < b { assert ps[a..b][0] == ps[a] && ps[a] in ps; }
  }

  // ---- the writer's steps ----

  /** A slice bs was linked behind all others. */
  ghost predicate Linked(s: State, t: State, bs: Packet) {
    && s.writer.Writing? && SB.AllOk(s.nodes) && SB.AllOk(t.nodes) && s.wnode < |s.nodes| <= |t.nodes|
    && t == s.(nodes := t.nodes, linked := s.linked + NonEmpty([bs]), writer := Writing(s.writer.ahead + |bs|))
    && (forall i | 0 <= i < s.wnode :: t.nodes[i] == s.nodes[i])
    && Queued(t.nodes, 0) == Queued(s.nodes, 0) + NonEmpty([bs])
    && |Queued(t.nodes, s.wnode + 1)| <= |Queued(s.nodes, s.wnode + 1)| + |NonEmpty([bs])|
    && (s.reader.Peeking? && s.reader.cur <= |s.nodes| ==>
          && (s.reader.cur == s.wnode + 1 ==> t.nodes[s.wnode] == s.nodes[s.wnode])
          && Queued(t.nodes, s.reader.cur) == Queued(s.nodes, s.reader.cur) + NonEmpty([bs]))
  }

  lemma Prefix<T>(a: seq<T>, b: seq<T>, i: nat, j: nat)
    requires i <= j <= |a|
    ensures (a + b)[i..j] == a[i..j] && (a + b)[i..] == a[i..] + b && (a + b)[..i] == a[..i]
  {}

  lemma Snoc<T>(a: seq<T>, i: nat, j: nat)
    requires i <= j < |a|
    ensures a[i..j] + [a[j]] == a[i..j + 1] && a[j..][0] == a[j] && a[j..][1..] == a[j + 1..]
  {}

  lemma LinkedCounts(s: State, t: State, bs: Packet)
    requires Counts(s) && Linked(s, t, bs)
    ensures Counts(t)
  {
    hide Queued, Flat, NonEmpty;
    Single(bs);
    var x := NonEmpty([bs]);
    FlatNonEmpty([bs]);
    Prefix(s.linked, x, s.gone, |s.linked|);
    Prefix(s.linked, x, s.published, |s.linked|);
    Prefix(s.linked, x, Settled(s), s.published);
    FlatConcat(s.linked[s.published..], x);
  }

  lemma LinkedReader(s: State, t: State, bs: Packet)
    requires Progress(s) && Linked(s, t, bs)
    ensures Progress(t)
  {
    hide Queued, Flat, NonEmpty;
    var x := NonEmpty([bs]);
    match s.reader
    case NotReading =>
    case Peeking(_, upto, rest, cur, got) =>
      Prefix(s.linked, x, s.gone, s.gone + |got|);
      Prefix(s.linked, x, s.gone + |got|, upto);
    case Taking(n, start, cur, got) => Prefix(s.linked, x, start, s.gone);
  }

  lemma LinkedKept(s: State, t: State, bs: Packet)
    requires Inv(s) && Linked(s, t, bs)
    ensures Inv(t)
  {
    LinkedCounts(s, t, bs);
    LinkedReader(s, t, bs);
    hide Counts, Progress, Queued, NonEmpty;
  }

  lemma LinkKept(s: State, i: nat, bs: Packet)
    requires Inv(s) && Enabled(s, Link(i, bs))
    ensures Inv(Next(s, Link(i, bs)))
  {
    hide Queued, NonEmpty, Flat, Counts;
    var t, n := Next(s, Link(i, bs)), s.nodes[i].(mem := bs, w := |bs|);
    assert n.Ok() && n.Data() == bs;
    QueuedLink(s.nodes, i, n, 0);
    if i > s.wnode { QueuedLink(s.nodes, i, n, s.wnode + 1); } else { SameBehind(s.nodes, i, n, i + 1); }
    if s.reader.Peeking? { QueuedLink(s.nodes, i, n, s.reader.cur); }
    hide Progress;
    LinkedKept(s, t, bs);
  }

  /** Nodes behind i do not see a change of node i. */
  lemma SameBehind(ns: seq<Node>, i: nat, n: Node, j: nat)
    requires SB.AllOk(ns) && i < j <= |ns| && n.Ok()
    ensures SB.AllOk(ns[i := n]) && Queued(ns[i := n], j) == Queued(ns, j)
  {
    assert ns[i := n][j..] == ns[j..];
  }

  lemma AttachKept(s: State, bs: Packet)
    requires Inv(s) && Enabled(s, Attach(bs))
    ensures Inv(Next(s, Attach(bs)))
  {
    hide Queued, NonEmpty, Flat, Counts;
    var t, n := Next(s, Attach(bs)), SB.Node(bs, 0, |bs|);
    assert n.Ok() && n.Data() == bs;
    QueuedAttach(s.nodes, n, 0);
    QueuedAttach(s.nodes, n, s.wnode + 1);
    if s.reader.Peeking? { QueuedAttach(s.nodes, n, s.reader.cur); }
    hide Progress;
    LinkedKept(s, t, bs);
  }

  lemma PublishKept(s: State, a: Step)
    requires Inv(s) && Enabled(s, a) && (a.BeginWrite? || a.Advance? || a.Publish? || a.EndWrite?)
    ensures Inv(Next(s, a))
  {
    hide Queued, NonEmpty, Flat;
    if a.Advance? { QueuedShorter(s.nodes, s.wnode + 1, a.i + 1); }
    if a.Publish? {
      assert forall j | s.wnode < j < |s.nodes| :: s.nodes[j].Ok() && s.nodes[j].r == s.nodes[j].w;
      NothingQueued(s.nodes, s.wnode + 1);
      assert s.linked[|s.linked|..] == [];
      EmptyPieces([]);
      FlatParts(s.linked, Settled(s), s.published, |s.linked|);
      assert s.linked[s.published..|s.linked|] == s.linked[s.published..];
    }
  }

  // ---- the reader's steps ----

  lemma BeginKept(s: State, a: Step)
    requires Inv(s) && Enabled(s, a) && (a.BeginPeek? || a.BeginTake? || a.EndPeek? || a.FreeHead? || a.SetRnode?)
    ensures Inv(Next(s, a))
  {
    hide Queued, NonEmpty, Flat;
    QueuedSkip(s.nodes, 0, s.rnode);
  }

  /** A reader that wants more published packets is not past the write node, nor at it when that is read out. */
  lemma MoreAhead(s: State, cur: nat, next: nat)
    requires Cursors(s) && cur <= |s.nodes| && next < s.published <= |s.linked|
    requires Queued(s.nodes, cur) == s.linked[next..]
    ensures cur <= s.wnode && (s.nodes[cur].r == s.nodes[cur].w ==> cur < s.wnode)
  {
    hide Queued, NonEmpty;
    if cur > s.wnode {
      QueuedShorter(s.nodes, s.wnode + 1, cur);
    } else if cur == s.wnode && s.nodes[cur].r == s.nodes[cur].w {
      QueuedSkip(s.nodes, cur, cur + 1);
    }
  }

  lemma PeekHopKept(s: State)
    requires Inv(s) && Enabled(s, PeekHop)
    ensures Inv(Next(s, PeekHop))
  {
    hide Queued, NonEmpty, Flat;
    FlatSome(s.linked, s.gone + |s.reader.got|, s.reader.upto);
    MoreAhead(s, s.reader.cur, s.gone + |s.reader.got|);
    QueuedSkip(s.nodes, s.reader.cur, s.reader.cur + 1);
  }

  /** A node with bytes holds the first queued packet. */
  lemma FirstQueued(ns: seq<Node>, i: nat, linked: seq<Packet>, k: nat)
    requires SB.AllOk(ns) && i < |ns| && ns[i].r < ns[i].w && k < |linked| && Queued(ns, i) == linked[k..]
    ensures ns[i].Data() == linked[k] && Queued(ns, i + 1) == linked[k + 1..]
  {
    hide Queued, NonEmpty;
    QueuedAt(ns, i);
    Single(ns[i].Data());
    Snoc(linked, k, k);
  }

  lemma FlatFirst(ps: seq<Packet>, k: nat, b: nat)
    requires k < b <= |ps|
    ensures |Flat(ps[k..b])| == |ps[k]| + |Flat(ps[k + 1..b])|
  {
    hide Flat;
    FlatParts(ps, k, k + 1, b);
    assert ps[k..k + 1] == [ps[k]];
    Single(ps[k]);
  }

  /** The next block a peek finds is the next packet, whole: the cut at rest does not act. */
  lemma NextPacket(s: State)
    requires Inv(s) && Enabled(s, PeekBlock)
    ensures var k, n := s.gone + |s.reader.got|, s.nodes[s.reader.cur];
      && k < s.reader.upto && n.Data() == s.linked[k] && n.w - n.r <= s.reader.rest
      && s.reader.rest - (n.w - n.r) == |Flat(s.linked[k + 1..s.reader.upto])|
      && s.reader.cur <= s.wnode && Queued(s.nodes, s.reader.cur + 1) == s.linked[k + 1..]
  {
    hide Queued, NonEmpty, Flat;
    var k, cur := s.gone + |s.reader.got|, s.reader.cur;
    FlatSome(s.linked, k, s.reader.upto);
    MoreAhead(s, cur, k);
    FirstQueued(s.nodes, cur, s.linked, k);
    FlatFirst(s.linked, k, s.reader.upto);
  }

  lemma PeekBlockKept(s: State)
    requires Inv(s) && Enabled(s, PeekBlock)
    ensures Inv(Next(s, PeekBlock))
  {
    hide Queued, NonEmpty, Flat;
    NextPacket(s);
    var k := s.gone + |s.reader.got|;
    Snoc(s.linked, s.gone, k);
  }

  lemma TakeHopKept(s: State)
    requires Inv(s) && Enabled(s, TakeHop)
    ensures Inv(Next(s, TakeHop))
  {
    hide Queued, NonEmpty, Flat;
    QueuedSkip(s.nodes, 0, s.reader.cur);
    MoreAhead(s, s.reader.cur, s.gone);
  }

  lemma TakeNodeKept(s: State)
    requires Inv(s) && Enabled(s, TakeNode)
    ensures Inv(Next(s, TakeNode)) && s.gone < s.published && s.nodes[s.reader.cur].Data() == s.linked[s.gone]
  {
    hide Queued, NonEmpty, Flat;
    var rd, n := s.reader, s.nodes[s.reader.cur];
    QueuedTake(s.nodes, rd.cur);
    Snoc(s.linked, rd.start, s.gone);
    SameBehind(s.nodes, rd.cur, n.(r := n.w), s.wnode + 1);
  }

  lemma EndTakeKept(s: State)
    requires Inv(s) && Enabled(s, EndTake)
    ensures Inv(Next(s, EndTake))
  {
    hide Queued, NonEmpty, Flat;
    var rd := s.reader;
    FlatParts(s.linked, rd.start, s.gone, s.published);
    assert s.linked[..rd.start] + s.linked[rd.start..s.gone] == s.linked[..s.gone];
  }

  lemma OptimizeKept(s: State, a: Step)
    requires Inv(s) && Enabled(s, a) && (a.Rewind? || a.CleanUp?)
    ensures Inv(Next(s, a))
  {
    hide Queued, NonEmpty, Flat;
    FlatSome(s.linked, s.gone, s.published);
    assert s.linked[s.published..|s.linked|] == s.linked[s.published..];
    FlatSome(s.linked, s.published, |s.linked|);
    assert Queued(s.nodes, 0) == [];
    forall i | 0 <= i < |s.nodes| ensures s.nodes[i].r == s.nodes[i].w {
      QueueEmpty(s.nodes, 0, i);
    }
    var t := Next(s, a);
    NothingQueued(t.nodes, 0);
    NothingQueued(t.nodes, t.wnode + 1);
  }

  // ---- every run ----

  ghost predicate Init(s: State) {
    && s == State(s.nodes, 0, 0, 0, 0, [], 0, 0, [], NotWriting, NotReading)
    && |s.nodes| == 1 && s.nodes[0].r == 0 == s.nodes[0].w
  }

  ghost predicate Run(s: State, steps: seq<Step>, t: State)
    decreases |steps|
  {
    if steps == [] then s == t else Enabled(s, steps[0]) && Run(Next(s, steps[0]), steps[1..], t)
  }

  lemma InvKept(s: State, a: Step)
    requires Inv(s) && Enabled(s, a)
    ensures Inv(Next(s, a))
  {
    hide Inv, Enabled, Next;
    match a
    case Link(i, bs) => LinkKept(s, i, bs);
    case Attach(bs) => AttachKept(s, bs);
    case BeginWrite => PublishKept(s, a);
    case Advance(_) => PublishKept(s, a);
    case Publish => PublishKept(s, a);
    case EndWrite => PublishKept(s, a);
    case PeekHop => PeekHopKept(s);
    case PeekBlock => PeekBlockKept(s);
    case TakeHop => TakeHopKept(s);
    case TakeNode => TakeNodeKept(s);
    case EndTake => EndTakeKept(s);
    case Rewind => OptimizeKept(s, a);
    case CleanUp(_) => OptimizeKept(s, a);
    case _ => BeginKept(s, a);
  }

  lemma {:induction false} Reachable(s: State, steps: seq<Step>, t: State)
    requires Inv(s) && Run(s, steps, t)
    ensures Inv(t)
    decreases |steps|
  {
    hide Inv, Enabled, Next;
    if steps != [] {
      InvKept(s, steps[0]);
      Reachable(Next(s, steps[0]), steps[1..], t);
    }
  }

  lemma Starts(s: State)
    requires Init(s)
    ensures Inv(s)
  {
    NothingQueued(s.nodes, 0);
    NothingQueued(s.nodes, 1);
    hide Queued;
  }

  lemma FromInit(s: State, steps: seq<Step>, t: State)
    requires Init(s) && Run(s, steps, t)
    ensures Inv(t)
  {
    hide Run, Init, Inv;
    Starts(s);
    Reachable(s, steps, t);
  }

  // ---- the promises ----

  /** Over every interleaving, rlen ends at the end of a packet: it counts the published packets not taken, whole. */
  lemma Boundary(s: State, steps: seq<Step>, t: State)
    requires Init(s) && Run(s, steps, t)
    ensures |t.delivered| <= t.published <= |t.linked| && t.delivered == t.linked[..|t.delivered|]
    ensures t.rlen == |Flat(t.linked[|t.delivered|..t.published])|
  {
    FromInit(s, steps, t);
    hide Run, Queued, Flat;
  }

  /**
   Over every interleaving, the blocks of a peek are the next packets, whole, in order and published when it began:
   all of those, unless it has run out of places. The cut at rest never shortens one.
   */
  lemma PeeksPublishedPackets(s: State, steps: seq<Step>, t: State)
    requires Init(s) && Run(s, steps, t) && t.reader.Peeking?
    ensures t.gone + |t.reader.got| <= t.reader.upto <= t.published <= |t.linked|
    ensures t.reader.got == t.linked[t.gone..t.gone + |t.reader.got|]
    ensures Enabled(t, EndPeek) ==> |t.reader.got| >= t.reader.places || t.gone + |t.reader.got| == t.reader.upto
  {
    hide Run, Init, Queued, Flat;
    FromInit(s, steps, t);
    FlatSome(t.linked, t.gone + |t.reader.got|, t.reader.upto);
  }

  /** Over every interleaving, ReadBlock and SkipBlocks take the next packets, whole and published, in order. */
  lemma TakesPublishedPackets(s: State, steps: seq<Step>, t: State)
    requires Init(s) && Run(s, steps, t) && t.reader.Taking?
    ensures t.reader.start + |t.reader.got| == t.gone <= t.reader.start + t.reader.n <= t.published <= |t.linked|
    ensures t.reader.got == t.linked[t.reader.start..t.gone] && t.delivered == t.linked[..t.reader.start]
    ensures Enabled(t, TakeNode) ==> t.gone < t.published && t.nodes[t.reader.cur].Data() == t.linked[t.gone]
  {
    hide Run, Init, Queued, Flat;
    FromInit(s, steps, t);
    if Enabled(t, TakeNode) { TakeNodeKept(t); }
  }

  /** A reader that finds rlen positive finds a packet, so ReadBlock never fails after its check. */
  lemma BlockIsThere(s: State, steps: seq<Step>, t: State)
    requires Init(s) && Run(s, steps, t) && t.reader.NotReading?
    ensures t.rlen > 0 <==> Enabled(t, BeginTake(1))
  {
    hide Run, Init, Queued, Flat;
    FromInit(s, steps, t);
    FlatSome(t.linked, t.gone, t.published);
  }

  lemma TakerFinds(t: State)
    requires Inv(t) && t.reader.Taking? && |t.reader.got| < t.reader.n
    ensures Enabled(t, TakeHop) || Enabled(t, TakeNode)
  {
    hide Queued, Flat;
    QueuedSkip(t.nodes, 0, t.reader.cur);
    MoreAhead(t, t.reader.cur, t.gone);
  }

  lemma PeekerFinds(t: State)
    requires Inv(t) && t.reader.Peeking?
    ensures Enabled(t, PeekHop) || Enabled(t, PeekBlock) || Enabled(t, EndPeek)
  {
    hide Queued, Flat;
    if t.reader.rest > 0 {
      FlatSome(t.linked, t.gone + |t.reader.got|, t.reader.upto);
      MoreAhead(t, t.reader.cur, t.gone + |t.reader.got|);
    }
  }

  /** A reader that has not got all it wants finds the next node; it never passes the write node or leaves the chain. */
  lemma ReaderFinds(s: State, steps: seq<Step>, t: State)
    requires Init(s) && Run(s, steps, t)
    ensures t.head <= t.rnode <= t.wnode < |t.nodes|
    ensures t.reader.Taking? ==> t.rnode <= t.reader.cur <= t.wnode
    ensures t.reader.Taking? && |t.reader.got| < t.reader.n ==> Enabled(t, TakeHop) || Enabled(t, TakeNode)
    ensures t.reader.Peeking? ==> Enabled(t, PeekHop) || Enabled(t, PeekBlock) || Enabled(t, EndPeek)
  {
    hide Run, Init, Queued, Flat, Enabled;
    FromInit(s, steps, t);
    if t.reader.Taking? && |t.reader.got| < t.reader.n { TakerFinds(t); }
    if t.reader.Peeking? { PeekerFinds(t); }
  }

  // ---- what the steps say ----

  /** The step that began the last peek or take, if there was one. */
  function LastBegin(steps: seq<Step>): seq<Step> {
    if steps == [] then [] else
      var later := LastBegin(steps[1..]);
      if later != [] then later else if steps[0].BeginPeek? || steps[0].BeginTake? then [steps[0]] else []
  }

  /** The packets that were linked, in order. */
  function LinkedBy(a: Step): seq<Packet> {
    if a.Link? || a.Attach? then NonEmpty([a.bs]) else []
  }

  function PacketsOf(steps: seq<Step>): seq<Packet> {
    if steps == [] then [] else LinkedBy(steps[0]) + PacketsOf(steps[1..])
  }

  /** How many packets finished takes asked for, when one that asked for so many is under way. */
  function Finished(steps: seq<Step>, pending: nat): nat
    decreases |steps|
  {
    if steps == [] then 0 else
      match steps[0]
      case BeginTake(n) => Finished(steps[1..], n)
      case EndTake => pending + Finished(steps[1..], 0)
      case _ => Finished(steps[1..], pending)
  }

  function Pending(s: State): nat {
    if s.reader.Taking? then s.reader.n else 0
  }

  lemma RunParts(s: State, steps: seq<Step>, t: State)
    requires Run(s, steps, t) && steps != []
    ensures Enabled(s, steps[0]) && Run(Next(s, steps[0]), steps[1..], t)
  {
    hide Next, Enabled;
  }

  lemma StepFacts(s: State, a: Step)
    requires Enabled(s, a)
    ensures var t := Next(s, a);
      && t.linked == s.linked + LinkedBy(a)
      && (a.EndTake? ==> |s.reader.got| == s.reader.n)
      && |t.delivered| == |s.delivered| + (if a.EndTake? then Pending(s) else 0)
  {
    hide NonEmpty, Flat;
  }

  /** What the reader was asked for. */
  function AskedFor(r: Reader): seq<Step> {
    match r
    case NotReading => []
    case Peeking(places, _, _, _, _) => [BeginPeek(places)]
    case Taking(n, _, _, _) => [BeginTake(n)]
  }

  lemma AskedNext(s: State, a: Step)
    requires Enabled(s, a)
    ensures var t := Next(s, a);
      && Pending(t) == (if a.BeginTake? then a.n else if a.EndTake? then 0 else Pending(s))
      && (!t.reader.NotReading? ==>
            AskedFor(t.reader) == if a.BeginPeek? || a.BeginTake? then [a] else AskedFor(s.reader))
  {
    hide NonEmpty, Flat;
  }

  lemma {:induction false} AskedRun(s: State, steps: seq<Step>, t: State)
    requires Run(s, steps, t)
    ensures !t.reader.NotReading? ==>
      AskedFor(t.reader) == if LastBegin(steps) != [] then LastBegin(steps) else AskedFor(s.reader)
    decreases |steps|
  {
    if steps != [] {
      RunParts(s, steps, t);
      hide Next, Enabled, Run;
      AskedNext(s, steps[0]);
      AskedRun(Next(s, steps[0]), steps[1..], t);
    }
  }

  lemma {:induction false} FinishedRun(s: State, steps: seq<Step>, t: State)
    requires Run(s, steps, t)
    ensures |t.delivered| == |s.delivered| + Finished(steps, Pending(s))
    decreases |steps|
  {
    if steps != [] {
      RunParts(s, steps, t);
      hide Next, Enabled, Run, Pending;
      StepFacts(s, steps[0]);
      AskedNext(s, steps[0]);
      FinishedRun(Next(s, steps[0]), steps[1..], t);
    }
  }

  lemma {:induction false} LinkedRun(s: State, steps: seq<Step>, t: State)
    requires Run(s, steps, t)
    ensures t.linked == s.linked + PacketsOf(steps)
    decreases |steps|
  {
    if steps != [] {
      RunParts(s, steps, t);
      hide Next, Enabled, Run, LinkedBy;
      StepFacts(s, steps[0]);
      LinkedRun(Next(s, steps[0]), steps[1..], t);
      Regroup(s.linked, LinkedBy(steps[0]), PacketsOf(steps[1..]));
    }
  }

  lemma Regroup(a: seq<Packet>, b: seq<Packet>, c: seq<Packet>)
    ensures a + b + c == a + (b + c)
  {}

  /**
   Over every interleaving, a reader wants what it asked for, the packets are the nonempty slices that were linked, in
   order, and finished takes have returned, in all, the first of them, as many as they asked for.
   */
  lemma Accounts(s: State, steps: seq<Step>, t: State)
    requires Init(s) && Run(s, steps, t)
    ensures !t.reader.NotReading? ==> LastBegin(steps) == AskedFor(t.reader)
    ensures t.linked == PacketsOf(steps) && Finished(steps, 0) <= |PacketsOf(steps)|
    ensures t.delivered == PacketsOf(steps)[..Finished(steps, 0)]
  {
    hide Run, PacketsOf, Finished, LastBegin, Init, Flat;
    StartsEmpty(s);
    AskedRun(s, steps, t);
    FinishedRun(s, steps, t);
    LinkedRun(s, steps, t);
    Boundary(s, steps, t);
    assert [] + PacketsOf(steps) == PacketsOf(steps);
  }

  lemma StartsEmpty(s: State)
    requires Init(s)
    ensures s.linked == [] == s.delivered && s.reader.NotReading?
  {}

  // ---- calls that run to their end ----

  predicate WriterStep(a: Step) {
    a.BeginWrite? || a.Link? || a.Attach? || a.Advance? || a.Publish? || a.EndWrite?
  }

  /** All steps are of the writer, or all of the reader. */
  ghost predicate Only(steps: seq<Step>, writer: bool) {
    forall a | a in steps :: WriterStep(a) == writer
  }

  lemma {:induction false} Extends(s: State, steps: seq<Step>, t: State, a: Step)
    requires Run(s, steps, t) && Enabled(t, a)
    ensures Run(s, steps + [a], Next(t, a))
    decreases |steps|
  {
    if steps == [] {
      assert (steps + [a])[1..] == [] && Run(Next(t, a), [], Next(t, a));
    } else {
      assert (steps + [a])[1..] == steps[1..] + [a];
      RunParts(s, steps, t);
      hide Next, Enabled;
      Extends(Next(s, steps[0]), steps[1..], t, a);
    }
  }

  lemma On(s: State, steps: seq<Step>, t: State, a: Step, writer: bool) returns (more: seq<Step>, u: State)
    requires Run(s, steps, t) && Enabled(t, a) && Only(steps, writer) && WriterStep(a) == writer
    ensures u == Next(t, a) && Run(s, more, u) && Only(more, writer) && more == steps + [a]
  {
    u, more := Next(t, a), steps + [a];
    Extends(s, steps, t, a);
  }

  lemma Start(s: State)
    ensures Run(s, [], s)
  {}

  /** The writer makes a node the write node, publishes, and leaves. */
  lemma PublishAlone(s: State, xs: seq<Step>, t: State, i: nat) returns (steps: seq<Step>, u: State)
    requires Run(s, xs, t) && Only(xs, true) && t.writer.Writing? && t.wnode <= i < |t.nodes| && LastWritten(t, i)
    ensures Run(s, steps, u) && Only(steps, true)
    ensures u == t.(wnode := i, rlen := t.rlen + t.writer.ahead, published := |t.linked|, writer := NotWriting)
  {
    hide Run;
    steps, u := On(s, xs, t, Advance(i), true);
    steps, u := On(s, steps, u, Publish, true);
    steps, u := On(s, steps, u, EndWrite, true);
  }

  /** From every state without a writer, a nonempty slice in a new node becomes the last published packet. */
  lemma AttachAlone(s: State, bs: Packet) returns (steps: seq<Step>, t: State)
    requires s.writer.NotWriting? && s.wnode < |s.nodes| && bs != []
    ensures Run(s, steps, t) && Only(steps, true)
    ensures t == s.(nodes := s.nodes + [SB.Node(bs, 0, |bs|)], wnode := |s.nodes|, rlen := s.rlen + |bs|,
                    linked := s.linked + [bs], published := |s.linked| + 1)
  {
    Start(s);
    Single(bs);
    hide Run, NonEmpty;
    steps, t := On(s, [], s, BeginWrite, true);
    steps, t := On(s, steps, t, Attach(bs), true);
    steps, t := PublishAlone(s, steps, t, |s.nodes|);
  }

  /** A slice in the unwritten node i does the same, and an empty one only moves the write node there. */
  lemma LinkAlone(s: State, i: nat, bs: Packet) returns (steps: seq<Step>, t: State)
    requires s.writer.NotWriting? && s.wnode <= i < |s.nodes| && s.nodes[i].w == 0 && LastWritten(s, i)
    ensures Run(s, steps, t) && Only(steps, true)
    ensures t == s.(nodes := s.nodes[i := s.nodes[i].(mem := bs, w := |bs|)], wnode := i, rlen := s.rlen + |bs|,
                    linked := s.linked + NonEmpty([bs]), published := |s.linked + NonEmpty([bs])|)
  {
    Start(s);
    hide Run, NonEmpty;
    steps, t := On(s, [], s, BeginWrite, true);
    steps, t := On(s, steps, t, Link(i, bs), true);
    steps, t := PublishAlone(s, steps, t, i);
  }

  lemma TakingFacts(t: State)
    requires Inv(t) && t.reader.Taking?
    ensures t.reader.cur <= t.wnode < |t.nodes| && |t.reader.got| <= t.reader.n
    ensures t.reader.start + t.reader.n <= t.published <= |t.linked| && t.gone == t.reader.start + |t.reader.got|
    ensures t.reader.got == t.linked[t.reader.start..t.gone]
  {
    hide Queued, Flat;
  }

  /** A take at any point gets the rest of its packets by its own steps. */
  lemma {:induction false} TakesOn(s: State, xs: seq<Step>, t: State) returns (steps: seq<Step>, u: State)
    requires Run(s, xs, t) && Only(xs, false) && Inv(t) && t.reader.Taking?
    ensures Run(s, steps, u) && Only(steps, false) && Inv(u)
    ensures u.reader.Taking? && u.reader.n == t.reader.n == |u.reader.got| && u.reader.start == t.reader.start
    ensures u.linked == t.linked && u.writer == t.writer && u.delivered == t.delivered && u.published == t.published
    ensures u.rlen == t.rlen
    decreases |t.nodes| - t.reader.cur, t.reader.n - |t.reader.got|
  {
    hide Run;
    steps, u := xs, t;
    TakingFacts(t);
    if |t.reader.got| < t.reader.n {
      TakerFinds(t);
      var a := if Enabled(t, TakeHop) then TakeHop else TakeNode;
      InvKept(t, a);
      hide Inv;
      steps, u := On(s, xs, t, a, false);
      steps, u := TakesOn(s, steps, u);
    }
  }

  /**
   From every reachable state without a reader, a take of n published packets runs to its end by its own steps: it
   returns exactly the next n packets and takes their bytes off rlen.
   */
  lemma TakeAlone(s: State, steps: seq<Step>, t: State, n: nat) returns (more: seq<Step>, u: State)
    requires Init(s) && Run(s, steps, t) && Enabled(t, BeginTake(n))
    ensures t.gone + n <= t.published <= |t.linked|
    ensures Run(t, more, u) && Only(more, false) && u.reader.NotReading? && u.linked == t.linked && u.writer == t.writer
    ensures var got := t.linked[t.gone..t.gone + n];
      u.delivered == t.delivered + got && u.rlen == t.rlen - |Flat(got)|
  {
    FromInit(s, steps, t);
    hide Run, Inv, Init, Flat;
    hide Enabled, Next;
    more, u := TakesAll(t, n);
    TakingFacts(u);
    assert u.reader.got == t.linked[t.gone..t.gone + n];
    more, u := TakeEnds(t, more, u);
  }

  /** A take that has its packets. */
  lemma TakeEnds(s: State, xs: seq<Step>, t: State) returns (steps: seq<Step>, u: State)
    requires Run(s, xs, t) && Only(xs, false) && t.reader.Taking? && |t.reader.got| == t.reader.n
    ensures Run(s, steps, u) && Only(steps, false)
    ensures u == t.(rnode := t.reader.cur, rlen := t.rlen - |Flat(t.reader.got)|,
                    delivered := t.delivered + t.reader.got, reader := NotReading)
  {
    hide Run, Flat;
    steps, u := On(s, xs, t, SetRnode, false);
    steps, u := On(s, steps, u, EndTake, false);
  }

  /** A take up to its last packet. */
  lemma TakesAll(t: State, n: nat) returns (steps: seq<Step>, u: State)
    requires Inv(t) && Enabled(t, BeginTake(n))
    ensures Run(t, steps, u) && Only(steps, false) && Inv(u)
    ensures u.reader.Taking? && u.reader.n == n == |u.reader.got| && u.reader.start == t.gone
    ensures u.linked == t.linked && u.writer == t.writer && u.delivered == t.delivered && u.published == t.published
    ensures u.rlen == t.rlen
  {
    hide Run, Inv;
    steps, u := Begins(t, BeginTake(n));
    hide Enabled, Next;
    steps, u := TakesOn(t, steps, u);
  }

  lemma PeekingFacts(t: State)
    requires Inv(t) && t.reader.Peeking?
    ensures t.reader.cur <= |t.nodes| && t.gone + |t.reader.got| <= t.reader.upto <= t.published <= |t.linked|
    ensures t.reader.got == t.linked[t.gone..t.gone + |t.reader.got|]
    ensures t.reader.rest <= 0 ==> t.gone + |t.reader.got| == t.reader.upto
  {
    hide Queued, Flat;
    FlatSome(t.linked, t.gone + |t.reader.got|, t.reader.upto);
  }

  /** A peek at any point collects the rest of its blocks by its own steps. */
  lemma {:induction false} PeeksOn(s: State, xs: seq<Step>, t: State) returns (steps: seq<Step>, u: State)
    requires Run(s, xs, t) && Only(xs, false) && Inv(t) && t.reader.Peeking? && |t.reader.got| <= t.reader.places
    ensures Run(s, steps, u) && Only(steps, false) && Inv(u) && u.reader.Peeking? && Enabled(u, EndPeek)
    ensures u.reader.places == t.reader.places >= |u.reader.got| && u.reader.upto == t.reader.upto
    ensures u == t.(reader := u.reader)
    decreases |t.nodes| - t.reader.cur
  {
    hide Run;
    steps, u := xs, t;
    PeekingFacts(t);
    if !Enabled(t, EndPeek) {
      PeekerFinds(t);
      var a := if Enabled(t, PeekHop) then PeekHop else PeekBlock;
      InvKept(t, a);
      hide Inv;
      steps, u := On(s, xs, t, a, false);
      steps, u := PeeksOn(s, steps, u);
    }
  }

  /** These steps end a peek that has got these packets. */
  ghost predicate EndsWith(s: State, steps: seq<Step>, got: seq<Packet>) {
    steps != [] && exists v :: Run(s, steps[..|steps| - 1], v) && v.reader.Peeking? && v.reader.got == got
  }

  /**
   From every reachable state without a reader, a peek for so many blocks runs to its end by its own steps: it shows
   exactly the next published packets, as many as there are places for, and changes nothing.
   */
  lemma PeekAlone(s: State, steps: seq<Step>, t: State, places: nat)
      returns (more: seq<Step>, got: seq<Packet>, u: State)
    requires Init(s) && Run(s, steps, t) && t.reader.NotReading?
    ensures t.gone <= t.published <= |t.linked| && Run(t, more, u) && Only(more, false) && u == t
    ensures EndsWith(t, more, got)
    ensures var there := t.linked[t.gone..t.published]; got == if places < |there| then there[..places] else there
  {
    FromInit(s, steps, t);
    hide Run, Inv, Init, Flat, Enabled, Next, EndsWith;
    more, u := PeeksAll(t, places);
    PeekingFacts(u);
    got := u.reader.got;
    PeekedIs(t.linked, t.gone, t.published, places, got);
    more, u := PeekEnds(t, more, u);
  }

  lemma PeekedIs(linked: seq<Packet>, gone: nat, published: nat, places: nat, got: seq<Packet>)
    requires gone + |got| <= published <= |linked| && got == linked[gone..gone + |got|] && |got| <= places
    requires |got| == places || gone + |got| == published
    ensures var there := linked[gone..published]; got == if places < |there| then there[..places] else there
  {}

  lemma PeekEnds(s: State, xs: seq<Step>, t: State) returns (steps: seq<Step>, u: State)
    requires Run(s, xs, t) && Only(xs, false) && Enabled(t, EndPeek)
    ensures Run(s, steps, u) && Only(steps, false) && u == t.(reader := NotReading)
    ensures t.reader.Peeking? && EndsWith(s, steps, t.reader.got)
  {
    hide Run;
    steps, u := On(s, xs, t, EndPeek, false);
    assert steps[..|steps| - 1] == xs;
  }

  /** A peek up to its last block. */
  lemma PeeksAll(t: State, places: nat) returns (steps: seq<Step>, u: State)
    requires Inv(t) && t.reader.NotReading?
    ensures Run(t, steps, u) && Only(steps, false) && Inv(u) && u.reader.Peeking? && Enabled(u, EndPeek)
    ensures u.reader.places == places >= |u.reader.got| && u.reader.upto == t.published && u == t.(reader := u.reader)
    ensures |u.reader.got| == places || u.reader.rest <= 0
  {
    hide Run, Inv, Enabled, Next;
    CanBegin(t, places);
    steps, u := Begins(t, BeginPeek(places));
    steps, u := PeeksOn(t, steps, u);
    PeekIsDone(u);
  }

  lemma CanBegin(t: State, places: nat)
    requires t.reader.NotReading?
    ensures Enabled(t, BeginPeek(places))
  {}

  lemma PeekIsDone(u: State)
    requires Enabled(u, EndPeek)
    ensures u.reader.Peeking? && (|u.reader.got| >= u.reader.places || u.reader.rest <= 0)
  {}

  /** The reader's first step. */
  lemma Begins(t: State, a: Step) returns (steps: seq<Step>, u: State)
    requires Inv(t) && t.reader.NotReading? && Enabled(t, a) && (a.BeginPeek? || a.BeginTake?)
    ensures Run(t, steps, u) && Only(steps, false) && Inv(u)
    ensures a.BeginPeek? ==> u == t.(reader := Peeking(a.places, t.published, t.rlen, t.rnode, []))
    ensures a.BeginTake? ==> u == t.(reader := Taking(a.n, t.gone, t.rnode, []))
  {
    hide Run, Inv;
    Start(t);
    InvKept(t, a);
    steps, u := On(t, [], t, a, false);
  }

  /** The reader frees every node before the read node. */
  lemma {:induction false} FreeAlone(s: State) returns (steps: seq<Step>, t: State)
    requires s.reader.NotReading? && s.head <= s.rnode
    ensures Run(s, steps, t) && Only(steps, false) && t == s.(head := s.rnode)
    decreases s.rnode - s.head
  {
    steps, t := [], s;
    if s.head < s.rnode {
      var more;
      more, t := FreeAlone(Next(s, FreeHead));
      steps := [FreeHead] + more;
      assert steps[1..] == more;
    }
  }

  /**
   With nothing unread, OptimizeMemory gives the write node its whole block back and leaves all else, or, when it cleans
   up, frees every node there was and leaves one empty node under all cursors.
   */
  lemma OptimizeAlone(s: State, cleanUp: bool, mem: seq<byte>) returns (steps: seq<Step>, t: State)
    requires s.reader.NotReading? && s.writer.NotWriting? && s.rlen == 0 && s.wnode < |s.nodes|
    ensures Run(s, steps, t) && Only(steps, false)
    ensures !cleanUp ==> t == s.(nodes := t.nodes) && |t.nodes| == |s.nodes|
                         && t.nodes[s.wnode] == SB.Node(s.nodes[s.wnode].mem, 0, 0)
                         && forall i | 0 <= i < |s.nodes| && i != s.wnode :: t.nodes[i] == s.nodes[i]
    ensures cleanUp ==> t.head == t.rnode == t.wnode == |s.nodes| && t.nodes == s.nodes + [SB.Node(mem, 0, 0)]
                        && t == s.(nodes := t.nodes, head := t.head, rnode := t.rnode, wnode := t.wnode)
  {
    Start(s);
    hide Run;
    steps, t := On(s, [], s, if cleanUp then CleanUp(mem) else Rewind, false);
  }
}
