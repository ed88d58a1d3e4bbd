/**
 The linked buffer under one reader and one writer with no lock in common (internal/buffer/buffer.go). The writer,
 under wlock, adds nodes, stores bytes past a node's write offset, raises the offset, moves wnode, and adds to rlen
 last; the reader, under rlock, compares rlen, walks from rnode, moves read offsets, sets rnode, subtracts from rlen,
 and frees nodes before rnode. Steps of the two sides interleave freely. A step of the reader may join the reading
 of a node's offsets with what follows from it, and a step of the writer the setting of a block with that of its
 length: what the reader found out stays true whatever the writer does in between, see WriterLeaves. Freed nodes keep
 their place in the sequence, below head.
 */
module SharedBuffer {
  import opened Bytes

  datatype Node = Node(mem: seq<byte>, r: nat, w: nat) {
    predicate Ok() {
      r <= w <= |mem|
    }

    function Data(): seq<byte>
      requires Ok()
    {
      mem[r..w]
    }
  }

  /** The writer has wlock: it may still write room bytes, and has raised offsets by ahead bytes not yet in rlen. */
  datatype Writer = NotWriting | Writing(room: nat, ahead: nat)

  /**
   The reader has rlock and wants n bytes; it stands at offset off of node cur and has got some of them. A read
   that consumes moves read offsets as it goes; a peek does not. start counts the bytes consumed before it.
   */
  datatype Reader = NotReading | Reading(n: nat, consume: bool, start: nat, cur: nat, off: nat, got: seq<byte>)

  datatype State = State(
    nodes: seq<Node>, head: nat, rnode: nat, wnode: nat,
    rlen: int,
    limit: nat,               // the limit of WritevLimited, if it is the only writer, or 0
    all: seq<byte>,           // all bytes below some write offset ever, in order
    published: nat,           // how many of them were added to rlen
    gone: nat,                // how many of them are below a read offset
    delivered: seq<byte>,     // bytes returned by reads that consume
    writer: Writer, reader: Reader)

  datatype Step =
    | BeginWrite(room: nat) | AddNode(mem: seq<byte>) | Store(i: nat, pos: nat, b: byte)
    | Raise(i: nat, k: nat) | Link(i: nat, bs: seq<byte>) | Advance(i: nat) | Publish | EndWrite
    | Check(n: nat, consume: bool) | Hop | Take(k: nat) | Block | Stop | SetRnode | Finish | FreeHead
    | Rewind | CleanUp(mem: seq<byte>)

  /** No byte has been written behind node i. */
  predicate LastWritten(s: State, i: nat) {
    forall j | i < j < |s.nodes| :: s.nodes[j].w == 0
  }

  predicate Enabled(s: State, a: Step) {
    match a
    case BeginWrite(room) => s.writer.NotWriting? && (s.limit > 0 ==> room <= s.limit - s.rlen)
    case AddNode(_) => s.writer.Writing?
    case Store(i, pos, _) => s.writer.Writing? && s.wnode <= i < |s.nodes| && s.nodes[i].w <= pos < |s.nodes[i].mem|
    case Raise(i, k) =>
      && s.writer.Writing? && k <= s.writer.room && s.wnode <= i < |s.nodes| && s.nodes[i].w + k <= |s.nodes[i].mem|
      && LastWritten(s, i)
    case Link(i, bs) =>
      && s.writer.Writing? && |bs| <= s.writer.room && s.wnode <= i < |s.nodes| && s.nodes[i].w == 0 &&
        LastWritten(s, i)
    case Advance(i) => s.writer.Writing? && s.wnode <= i < |s.nodes|
    case Publish => s.writer.Writing? && LastWritten(s, s.wnode)
    case EndWrite => s.writer.Writing? && s.writer.ahead == 0
    case Check(n, _) => s.reader.NotReading? && n <= s.rlen
    case Hop =>
      && s.reader.Reading? && |s.reader.got| < s.reader.n
      && s.reader.cur + 1 < |s.nodes| && s.nodes[s.reader.cur].w <= s.reader.off
    case Take(k) =>
      && s.reader.Reading? && 0 < k <= s.reader.n - |s.reader.got|
      && s.reader.cur < |s.nodes| && s.reader.off + k <= s.nodes[s.reader.cur].w <= |s.nodes[s.reader.cur].mem|
    case Block =>
      && s.reader.Reading? && !s.reader.consume && |s.reader.got| < s.reader.n
      && s.reader.cur < |s.nodes| && s.reader.off < s.nodes[s.reader.cur].w <= |s.nodes[s.reader.cur].mem|
    case Stop => s.reader.Reading? && !s.reader.consume
    case SetRnode => s.reader.Reading? && (s.reader.consume || s.reader.got == [])
    case Finish => s.reader.Reading? && |s.reader.got| == s.reader.n && (s.reader.consume ==> s.rnode == s.reader.cur)
    case FreeHead => s.reader.NotReading? && s.head < s.rnode
    case Rewind => s.reader.NotReading? && s.writer.NotWriting? && s.rlen == 0 && s.wnode < |s.nodes|
    case CleanUp(_) => s.reader.NotReading? && s.writer.NotWriting? && s.rlen == 0
  }

  function Set(s: State, i: nat, n: Node): State
    requires i < |s.nodes|
  {
    s.(nodes := s.nodes[i := n])
  }

  /** Bytes x came to lie below the write offset of the last written node. */
  function Raised(s: State, x: seq<byte>): State
    requires s.writer.Writing? && |x| <= s.writer.room
  {
    s.(all := s.all + x, writer := Writing(s.writer.room - |x|, s.writer.ahead + |x|))
  }

  /** The next k bytes of the reader's node. */
  function Took(s: State, k: nat): State
    requires Enabled(s, Take(k))
  {
    var rd, n := s.reader, s.nodes[s.reader.cur];
    var t := s.(reader := rd.(off := rd.off + k, got := rd.got + n.mem[rd.off..rd.off + k]));
    if rd.consume then Set(t, rd.cur, n.(r := rd.off + k)).(gone := s.gone + k) else t
  }

  /** What PeekBlocks takes from a node: all it finds there, but no more than it counted when it began. */
  function Cut(s: State): nat
    requires Enabled(s, Block)
  {
    var len, rest := s.nodes[s.reader.cur].w - s.reader.off, s.reader.n - |s.reader.got|;
    if len > rest then rest else len
  }

  function Next(s: State, a: Step): State
    requires Enabled(s, a)
  {
    match a
    case BeginWrite(room) => s.(writer := Writing(room, 0))
    case AddNode(mem) => s.(nodes := s.nodes + [Node(mem, 0, 0)])
    case Store(i, pos, b) => Set(s, i, s.nodes[i].(mem := s.nodes[i].mem[pos := b]))
    case Raise(i, k) =>
      var n := s.nodes[i];
      Raised(Set(s, i, n.(w := n.w + k)), n.mem[n.w..n.w + k])
    case Link(i, bs) => Raised(Set(s, i, s.nodes[i].(mem := bs, w := |bs|)), bs)
    case Advance(i) => s.(wnode := i)
    case Publish => s.(rlen := s.rlen + s.writer.ahead, published := s.published + s.writer.ahead,
      writer := s.writer.(ahead := 0))
    case EndWrite => s.(writer := NotWriting)
    case Check(n, consume) =>
      s.(reader := Reading(n, consume, s.gone, s.rnode, if s.rnode < |s.nodes| then s.nodes[s.rnode].r else 0, []))
    case Hop => s.(reader := s.reader.(cur := s.reader.cur + 1, off := s.nodes[s.reader.cur + 1].r))
    case Take(k) => Took(s, k)
    case Block => Took(s, Cut(s))
    case Stop => s.(reader := NotReading)
    case SetRnode => s.(rnode := s.reader.cur)
    case Finish =>
      if s.reader.consume then
        s.(rlen := s.rlen - s.reader.n, delivered := s.delivered + s.reader.got, reader := NotReading)
      else s.(reader := NotReading)
    case FreeHead => s.(head := s.head + 1)
    case Rewind => Set(s, s.wnode, s.nodes[s.wnode].(r := 0, w := 0))
    case CleanUp(mem) =>
      s.(nodes := s.nodes + [Node(mem, 0, 0)], head := |s.nodes|, rnode := |s.nodes|, wnode := |s.nodes|)
  }

  // ---- the chain as a stream ----

  ghost predicate AllOk(ns: seq<Node>) {
    forall i | 0 <= i < |ns| :: ns[i].Ok()
  }

  ghost function Datas(ns: seq<Node>): (ps: seq<seq<byte>>)
    requires AllOk(ns)
    ensures |ps| == |ns| && forall i | 0 <= i < |ns| :: ps[i] == ns[i].Data()
  {
    seq(|ns|, i requires 0 <= i < |ns| => ns[i].Data())
  }

  ghost function Unread(ns: seq<Node>): seq<byte>
    requires AllOk(ns)
  {
    Flat(Datas(ns))
  }

  /** What is below write offsets from offset off of node i on. */
  ghost function From(ns: seq<Node>, i: nat, off: nat): seq<byte>
    requires AllOk(ns) && i < |ns| && off <= ns[i].w
  {
    ns[i].mem[off..ns[i].w] + Unread(ns[i + 1..])
  }

  ghost function Ahead(s: State): nat {
    if s.writer.Writing? then s.writer.ahead else 0
  }

  /**
   head, rnode, the reader and wnode are in order; nothing is unread before rnode; later nodes hold unpublished
   bytes only.
   */
  ghost predicate Cursors(s: State) {
    && AllOk(s.nodes) && s.head <= s.rnode <= s.wnode < |s.nodes|
    && (forall i | 0 <= i < s.rnode :: s.nodes[i].r == s.nodes[i].w)
    && |Unread(s.nodes[s.wnode + 1..])| <= Ahead(s)
  }

  /** The unread bytes are those of the stream that are not gone, and rlen counts the published ones. */
  ghost predicate Counts(s: State) {
    && AllOk(s.nodes)
    && s.gone <= s.published == |s.all| - Ahead(s)
    && Unread(s.nodes) == s.all[s.gone..]
    && Settled(s) <= s.gone && s.rlen == s.published - Settled(s) && s.delivered == s.all[..Settled(s)]
  }

  /** The bytes consumed by reads that have finished. */
  ghost function Settled(s: State): nat {
    if s.reader.Reading? then s.reader.start else s.gone
  }

  /** A read has got the bytes of the stream from start on, stands before the next one, and wants published bytes. */
  ghost predicate Progress(s: State) {
    s.reader.Reading? ==>
      var rd := s.reader;
      && AllOk(s.nodes) && s.rnode <= rd.cur <= s.wnode < |s.nodes| && rd.off <= s.nodes[rd.cur].w
      && |rd.got| <= rd.n && rd.start + rd.n <= s.published <= |s.all|
      && rd.got == s.all[rd.start..rd.start + |rd.got|]
      && From(s.nodes, rd.cur, rd.off) == s.all[rd.start + |rd.got|..]
      && s.gone == rd.start + (if rd.consume then |rd.got| else 0)
      && (rd.consume || rd.got == [] ==>
            rd.off == s.nodes[rd.cur].r && forall i | 0 <= i < rd.cur :: s.nodes[i].r == s.nodes[i].w)
  }

  ghost predicate Limited(s: State) {
    s.limit > 0 ==> s.rlen + (if s.writer.Writing? then s.writer.ahead + s.writer.room else 0) <= s.limit
  }

  ghost predicate Inv(s: State) {
    Cursors(s) && Counts(s) && Progress(s) && Limited(s)
  }

  // ---- how steps change the stream ----

  lemma DatasFrom(ns: seq<Node>, j: nat)
    requires AllOk(ns) && j <= |ns|
    ensures AllOk(ns[j..]) && Datas(ns[j..]) == Datas(ns)[j..]
  {}

  /** Bytes x added to the last written node. */
  lemma Extend(ns: seq<Node>, i: nat, n: Node, x: seq<byte>, j: nat)
    requires AllOk(ns) && j <= i < |ns| && n.Ok() && n.Data() == ns[i].Data() + x
    requires forall j | i < j < |ns| :: ns[j].w == 0
    ensures AllOk(ns[i := n]) && Unread(ns[i := n][j..]) == Unread(ns[j..]) + x
  {
    hide Flat;
    var ms := ns[i := n];
    DatasFrom(ns, j);
    DatasFrom(ms, j);
    var ps := Datas(ns[j..]);
    assert Datas(ms[j..]) == ps[i - j := ps[i - j] + x];
    var later := ps[i - j + 1..];
    forall k | 0 <= k < |later| ensures later[k] == [] {
      assert later[k] == ns[i + 1 + k].Data();
    }
    FlatExtend(ps, i - j, x);
  }

  /** Pieces after i do not see a change of node i. */
  lemma SameAfter(ns: seq<Node>, i: nat, n: Node, j: nat)
    requires AllOk(ns) && i < j <= |ns| && n.Ok()
    ensures AllOk(ns[i := n]) && ns[i := n][j..] == ns[j..]
  {}

  lemma NothingAfter(ns: seq<Node>, j: nat)
    requires AllOk(ns) && j <= |ns| && forall k | j <= k < |ns| :: ns[k].r == ns[k].w
    ensures Unread(ns[j..]) == []
  {
    EmptyPieces(Datas(ns[j..]));
  }

  /** A node whose unread bytes stay the same. */
  lemma SameData(ns: seq<Node>, i: nat, n: Node, j: nat)
    requires AllOk(ns) && i < |ns| && j <= |ns| && n.Ok() && n.Data() == ns[i].Data()
    ensures AllOk(ns[i := n]) && Unread(ns[i := n][j..]) == Unread(ns[j..])
  {
    assert Datas(ns[i := n][j..]) == Datas(ns[j..]);
  }

  lemma EmptyNodeAdded(ns: seq<Node>, n: Node, j: nat)
    requires AllOk(ns) && j <= |ns| && n.Ok() && n.r == n.w
    ensures AllOk(ns + [n]) && Unread((ns + [n])[j..]) == Unread(ns[j..])
  {
    hide Flat;
    assert Datas((ns + [n])[j..]) == Datas(ns[j..]) + [[]];
    FlatConcat(Datas(ns[j..]), [[]]);
    Single([]);
  }

  /** The first unread bytes, taken from node i. */
  lemma Consume(ns: seq<Node>, i: nat, k: nat)
    requires AllOk(ns) && i < |ns| && ns[i].r + k <= ns[i].w && forall j | 0 <= j < i :: ns[j].r == ns[j].w
    ensures AllOk(ns[i := ns[i].(r := ns[i].r + k)])
    ensures k <= |Unread(ns)| && Unread(ns[i := ns[i].(r := ns[i].r + k)]) == Unread(ns)[k..]
  {
    hide Flat;
    var n := ns[i].(r := ns[i].r + k);
    var ps := Datas(ns);
    assert n.Data() == ps[i][k..];
    assert Datas(ns[i := n]) == ps[i := ps[i][k..]];
    FlatConsume(ps, i, k);
  }

  /** The next piece begins where a node ends. */
  lemma NextPiece(ns: seq<Node>, i: nat)
    requires AllOk(ns) && i + 1 < |ns|
    ensures From(ns, i, ns[i].w) == From(ns, i + 1, ns[i + 1].r)
  {
    assert ns[i + 1..][1..] == ns[i + 2..];
    assert Datas(ns[i + 1..])[1..] == Datas(ns[i + 2..]);
  }

  /** Reading from the first node that is not read out is reading the stream. */
  lemma FromStart(ns: seq<Node>, i: nat)
    requires AllOk(ns) && i < |ns| && forall j | 0 <= j < i :: ns[j].r == ns[j].w
    ensures From(ns, i, ns[i].r) == Unread(ns)
  {
    hide Flat;
    var ps := Datas(ns);
    FlatAt(ps, i);
    EmptyPieces(ps[..i]);
    DatasFrom(ns, i + 1);
  }

  lemma {:induction false} EmptyStream(ns: seq<Node>, i: nat)
    requires AllOk(ns) && Unread(ns) == [] && i < |ns|
    ensures ns[i].r == ns[i].w
  {
    hide Flat;
    FlatAt(Datas(ns), i);
  }

  lemma Shorter(ns: seq<Node>, a: nat, b: nat)
    requires AllOk(ns) && a <= b <= |ns|
    ensures |Unread(ns[b..])| <= |Unread(ns[a..])|
  {
    hide Flat;
    DatasFrom(ns, a);
    DatasFrom(ns, b);
    assert Datas(ns)[a..] == Datas(ns)[a..b] + Datas(ns)[b..];
    FlatConcat(Datas(ns)[a..b], Datas(ns)[b..]);
  }

  // ---- the writer's steps ----

  /** Node n is node m with bytes x put behind its write offset; only a node without bytes may change its block. */
  ghost predicate Grows(m: Node, n: Node, x: seq<byte>) {
    && m.Ok() && n.Ok() && n.r == m.r && n.w == m.w + |x| && n.mem[m.w..n.w] == x
    && (m.w == 0 || n.mem == m.mem)
  }

  lemma GrowsData(m: Node, n: Node, x: seq<byte>, off: nat)
    requires Grows(m, n, x) && off <= m.w
    ensures n.mem[off..n.w] == m.mem[off..m.w] + x && n.Data() == m.Data() + x
  {
    if m.w > 0 {
      assert m.mem[off..m.w + |x|] == m.mem[off..m.w] + m.mem[m.w..m.w + |x|];
      assert m.mem[m.r..m.w + |x|] == m.mem[m.r..m.w] + m.mem[m.w..m.w + |x|];
    }
  }

  /** Bytes added to the last written node, seen from any position at or before it. */
  lemma ExtendFrom(ns: seq<Node>, i: nat, n: Node, x: seq<byte>, cur: nat, off: nat)
    requires AllOk(ns) && cur <= i < |ns| && off <= ns[cur].w && Grows(ns[i], n, x)
    requires forall j | i < j < |ns| :: ns[j].w == 0
    ensures AllOk(ns[i := n]) && off <= ns[i := n][cur].w && From(ns[i := n], cur, off) == From(ns, cur, off) + x
  {
    hide Unread;
    GrowsData(ns[i], n, x, ns[i].r);
    if cur < i {
      Extend(ns, i, n, x, cur + 1);
    } else {
      SameAfter(ns, i, n, i + 1);
      NothingAfter(ns, i + 1);
      GrowsData(ns[i], n, x, off);
      assert Unread(ns[i := n][i + 1..]) == [];
    }
  }

  lemma RaisedCursors(s: State, i: nat, n: Node, x: seq<byte>)
    requires Cursors(s) && s.writer.Writing? && |x| <= s.writer.room
    requires s.wnode <= i < |s.nodes| && LastWritten(s, i) && Grows(s.nodes[i], n, x)
    ensures Cursors(Raised(Set(s, i, n), x))
  {
    hide Unread;
    GrowsData(s.nodes[i], n, x, s.nodes[i].r);
    if i > s.wnode { Extend(s.nodes, i, n, x, s.wnode + 1); } else { SameAfter(s.nodes, i, n, i + 1); }
  }

  lemma RaisedCounts(s: State, i: nat, n: Node, x: seq<byte>)
    requires Counts(s) && s.writer.Writing? && |x| <= s.writer.room
    requires s.wnode <= i < |s.nodes| && LastWritten(s, i) && Grows(s.nodes[i], n, x)
    ensures Counts(Raised(Set(s, i, n), x))
  {
    hide Unread;
    var t := Raised(Set(s, i, n), x);
    GrowsData(s.nodes[i], n, x, s.nodes[i].r);
    Extend(s.nodes, i, n, x, 0);
    assert s.nodes[0..] == s.nodes && t.nodes[0..] == t.nodes;
    assert t.all[s.gone..] == s.all[s.gone..] + x;
    assert t.all[..Settled(s)] == s.all[..Settled(s)];
  }

  lemma RaisedReader(s: State, i: nat, n: Node, x: seq<byte>)
    requires Inv(s) && s.writer.Writing? && |x| <= s.writer.room
    requires s.wnode <= i < |s.nodes| && LastWritten(s, i) && Grows(s.nodes[i], n, x)
    ensures Progress(Raised(Set(s, i, n), x))
  {
    hide Unread, From, Counts;
    var t := Raised(Set(s, i, n), x);
    if s.reader.Reading? {
      var rd := s.reader;
      ExtendFrom(s.nodes, i, n, x, rd.cur, rd.off);
      assert t.all[rd.start + |rd.got|..] == s.all[rd.start + |rd.got|..] + x;
      assert t.all[rd.start..rd.start + |rd.got|] == s.all[rd.start..rd.start + |rd.got|];
    }
  }

  lemma RaisedKept(s: State, i: nat, n: Node, x: seq<byte>)
    requires Inv(s) && s.writer.Writing? && |x| <= s.writer.room
    requires s.wnode <= i < |s.nodes| && LastWritten(s, i) && Grows(s.nodes[i], n, x)
    ensures Inv(Raised(Set(s, i, n), x))
  {
    RaisedCursors(s, i, n, x);
    RaisedCounts(s, i, n, x);
    RaisedReader(s, i, n, x);
    hide Cursors, Counts, Progress;
  }

  lemma StoreKept(s: State, i: nat, pos: nat, b: byte)
    requires Inv(s) && Enabled(s, Store(i, pos, b))
    ensures Inv(Next(s, Store(i, pos, b)))
  {
    hide Unread;
    var t, n := Next(s, Store(i, pos, b)), s.nodes[i].(mem := s.nodes[i].mem[pos := b]);
    assert n.Data() == s.nodes[i].Data();
    SameData(s.nodes, i, n, 0);
    assert s.nodes[0..] == s.nodes && t.nodes[0..] == t.nodes;
    SameData(s.nodes, i, n, s.wnode + 1);
    if s.reader.Reading? {
      var rd := s.reader;
      SameData(s.nodes, i, n, rd.cur + 1);
      assert t.nodes[rd.cur].mem[rd.off..t.nodes[rd.cur].w] == s.nodes[rd.cur].mem[rd.off..s.nodes[rd.cur].w];
    }
  }

  lemma AddNodeKept(s: State, mem: seq<byte>)
    requires Inv(s) && Enabled(s, AddNode(mem))
    ensures Inv(Next(s, AddNode(mem)))
  {
    hide Unread;
    var t, n := Next(s, AddNode(mem)), Node(mem, 0, 0);
    EmptyNodeAdded(s.nodes, n, 0);
    assert s.nodes[0..] == s.nodes && t.nodes[0..] == t.nodes;
    EmptyNodeAdded(s.nodes, n, s.wnode + 1);
    if s.reader.Reading? { EmptyNodeAdded(s.nodes, n, s.reader.cur + 1); }
  }

  lemma NothingRead(s: State)
    requires AllOk(s.nodes) && LastWritten(s, s.wnode)
    ensures forall j | s.wnode < j < |s.nodes| :: s.nodes[j].r == s.nodes[j].w
  {}

  lemma PublishKept(s: State, a: Step)
    requires Inv(s) && Enabled(s, a) && (a.BeginWrite? || a.Advance? || a.Publish? || a.EndWrite?)
    ensures Inv(Next(s, a))
  {
    hide Unread, From, Node.Ok;
    if a.Advance? { Shorter(s.nodes, s.wnode + 1, a.i + 1); }
    if a.Publish? {
      NothingRead(s);
      NothingAfter(s.nodes, s.wnode + 1);
    }
  }

  lemma NodesOk(s: State)
    requires Inv(s)
    ensures AllOk(s.nodes)
  {}

  lemma GrowsBy(n: Node, k: nat)
    requires n.Ok() && n.w + k <= |n.mem|
    ensures Grows(n, n.(w := n.w + k), n.mem[n.w..n.w + k])
  {}

  lemma RaiseKept(s: State, i: nat, k: nat)
    requires Inv(s) && Enabled(s, Raise(i, k))
    ensures Inv(Next(s, Raise(i, k)))
  {
    hide Inv;
    var n := s.nodes[i];
    NodesOk(s);
    GrowsBy(n, k);
    hide Grows, LastWritten;
    RaisedKept(s, i, n.(w := n.w + k), n.mem[n.w..n.w + k]);
  }

  lemma LinkKept(s: State, i: nat, bs: seq<byte>)
    requires Inv(s) && Enabled(s, Link(i, bs))
    ensures Inv(Next(s, Link(i, bs)))
  {
    hide Inv;
    NodesOk(s);
    var n := s.nodes[i].(mem := bs, w := |bs|);
    assert Grows(s.nodes[i], n, bs);
    hide Grows, LastWritten;
    RaisedKept(s, i, n, bs);
  }

  lemma WriterKept(s: State, a: Step)
    requires Inv(s) && Enabled(s, a)
    requires WriterStep(a)
    ensures Inv(Next(s, a))
  {
    hide Inv, Enabled, Next;
    match a
    case AddNode(mem) => AddNodeKept(s, mem);
    case Store(i, pos, b) => StoreKept(s, i, pos, b);
    case Raise(i, k) => RaiseKept(s, i, k);
    case Link(i, bs) => LinkKept(s, i, bs);
    case _ => PublishKept(s, a);
  }

  // ---- the reader's steps ----

  lemma CheckKept(s: State, n: nat, consume: bool)
    requires Inv(s) && Enabled(s, Check(n, consume))
    ensures Inv(Next(s, Check(n, consume)))
  {
    hide Unread, From;
    FromStart(s.nodes, s.rnode);
  }

  /** A reader that still wants bytes and has read its node out is not at the write node yet. */
  lemma MoreAhead(s: State)
    requires Inv(s) && s.reader.Reading? && |s.reader.got| < s.reader.n && s.nodes[s.reader.cur].w == s.reader.off
    ensures s.reader.cur < s.wnode
  {
    hide Unread;
  }

  lemma HopKept(s: State)
    requires Inv(s) && Enabled(s, Hop)
    ensures Inv(Next(s, Hop))
  {
    hide Unread, From;
    MoreAhead(s);
    NextPiece(s.nodes, s.reader.cur);
  }

  lemma TakeFrom(ns: seq<Node>, i: nat, off: nat, k: nat)
    requires AllOk(ns) && i < |ns| && off + k <= ns[i].w
    ensures k <= |From(ns, i, off)| && ns[i].mem[off..off + k] == From(ns, i, off)[..k]
    ensures From(ns, i, off + k) == From(ns, i, off)[k..]
  {
    hide Unread;
  }

  lemma StreamOn(all: seq<byte>, start: nat, got: seq<byte>, k: nat)
    requires start + |got| + k <= |all| && got == all[start..start + |got|]
    ensures all[start + |got|..][k..] == all[start + |got| + k..]
    ensures got + all[start + |got|..][..k] == all[start..start + |got| + k]
  {}

  /** A reader that changes nothing but how far it is. */
  lemma ReaderOnly(s: State, rd: Reader)
    requires Inv(s) && s.reader.Reading? && rd.Reading? && rd.start == s.reader.start
    ensures var t := s.(reader := rd); Cursors(t) && Counts(t) && Limited(t)
  {
    hide Unread, From, Node.Ok;
  }

  lemma PeekProgress(s: State, k: nat)
    requires Progress(s) && Enabled(s, Take(k)) && !s.reader.consume
    ensures Progress(Next(s, Take(k)))
  {
    hide Unread, From, Node.Ok;
    var rd := s.reader;
    TakeFrom(s.nodes, rd.cur, rd.off, k);
    StreamOn(s.all, rd.start, rd.got, k);
  }

  lemma PeekKept(s: State, k: nat)
    requires Inv(s) && Enabled(s, Take(k)) && !s.reader.consume
    ensures Inv(Next(s, Take(k)))
  {
    var t := Next(s, Take(k));
    ReaderOnly(s, t.reader);
    PeekProgress(s, k);
    hide Cursors, Counts, Progress, Limited;
    assert t == s.(reader := t.reader);
  }

  lemma TakeCounts(s: State, k: nat)
    requires Inv(s) && Enabled(s, Take(k)) && s.reader.consume
    ensures var t := Next(s, Take(k)); Cursors(t) && Counts(t) && Limited(t)
  {
    hide Unread, From;
    var rd, n := s.reader, s.nodes[s.reader.cur].(r := s.reader.off + k);
    Consume(s.nodes, rd.cur, k);
    SameAfter(s.nodes, rd.cur, n, s.wnode + 1);
    assert s.all[s.gone..][k..] == s.all[s.gone + k..];
  }

  lemma TakeProgress(s: State, k: nat)
    requires Progress(s) && Enabled(s, Take(k)) && s.reader.consume
    ensures Progress(Next(s, Take(k)))
  {
    hide Unread, From;
    var rd, n := s.reader, s.nodes[s.reader.cur].(r := s.reader.off + k);
    TakeFrom(s.nodes, rd.cur, rd.off, k);
    StreamOn(s.all, rd.start, rd.got, k);
    FromSame(s.nodes, rd.cur, n, rd.off + k);
  }

  lemma TakeKept(s: State, k: nat)
    requires Inv(s) && Enabled(s, Take(k)) && s.reader.consume
    ensures Inv(Next(s, Take(k)))
  {
    TakeCounts(s, k);
    TakeProgress(s, k);
    hide Cursors, Counts, Progress, Limited;
  }

  /** What lies ahead of a position does not depend on the read offset of its node. */
  lemma FromSame(ns: seq<Node>, i: nat, n: Node, off: nat)
    requires AllOk(ns) && i < |ns| && n.Ok() && n.mem == ns[i].mem && n.w == ns[i].w && off <= n.w
    ensures AllOk(ns[i := n]) && From(ns[i := n], i, off) == From(ns, i, off)
  {
    SameAfter(ns, i, n, i + 1);
  }

  lemma ReaderKept(s: State, a: Step)
    requires Inv(s) && Enabled(s, a)
    requires a.Check? || a.Hop? || a.Take? || a.Block? || a.Stop? || a.SetRnode? || a.Finish? || a.FreeHead?
    ensures Inv(Next(s, a))
  {
    hide Unread, From;
    match a
    case Check(n, consume) => CheckKept(s, n, consume);
    case Hop => HopKept(s);
    case Take(k) => if s.reader.consume { TakeKept(s, k); } else { PeekKept(s, k); }
    case Block => PeekKept(s, Cut(s));
    case Finish => assert s.delivered + s.reader.got == s.all[..s.reader.start + |s.reader.got|];
    case _ =>
  }

  // ---- both locks ----

  lemma OptimizeKept(s: State, a: Step)
    requires Inv(s) && Enabled(s, a) && (a.Rewind? || a.CleanUp?)
    ensures Inv(Next(s, a))
  {
    hide Unread;
    assert Unread(s.nodes) == [];
    forall i | 0 <= i < |s.nodes| ensures s.nodes[i].r == s.nodes[i].w {
      EmptyStream(s.nodes, i);
    }
    var t := Next(s, a);
    NothingAfter(t.nodes, 0);
    assert t.nodes[0..] == t.nodes;
    NothingAfter(t.nodes, t.wnode + 1);
  }

  // ---- every run ----

  ghost predicate Init(s: State) {
    && s == State(s.nodes, 0, 0, 0, 0, s.limit, [], 0, 0, [], NotWriting, NotReading)
    && |s.nodes| == 1 && s.nodes[0].r == 0 == s.nodes[0].w
  }

  ghost predicate Run(s: State, steps: seq<Step>, t: State)
    decreases |steps|
  {
    if steps == [] then s == t else Enabled(s, steps[0]) && Run(Next(s, steps[0]), steps[1..], t)
  }

  lemma InvKept(s: State, a: Step)
    requires Inv(s) && Enabled(s, a)
    ensures Inv(Next(s, a))
  {
    hide Inv, Enabled, Next;
    match a
    case Check(_, _) => ReaderKept(s, a);
    case Hop => ReaderKept(s, a);
    case Take(_) => ReaderKept(s, a);
    case Block => ReaderKept(s, a);
    case Stop => ReaderKept(s, a);
    case SetRnode => ReaderKept(s, a);
    case Finish => ReaderKept(s, a);
    case FreeHead => ReaderKept(s, a);
    case Rewind => OptimizeKept(s, a);
    case CleanUp(_) => OptimizeKept(s, a);
    case _ => WriterKept(s, a);
  }

  lemma {:induction false} Reachable(s: State, steps: seq<Step>, t: State)
    requires Inv(s) && Run(s, steps, t)
    ensures Inv(t)
    decreases |steps|
  {
    hide Inv, Enabled, Next;
    if steps != [] {
      InvKept(s, steps[0]);
      Reachable(Next(s, steps[0]), steps[1..], t);
    }
  }

  lemma Starts(s: State)
    requires Init(s)
    ensures Inv(s)
  {
    NothingAfter(s.nodes, 0);
    assert s.nodes[0..] == s.nodes;
    NothingAfter(s.nodes, 1);
    hide Unread;
  }

  lemma FromInit(s: State, steps: seq<Step>, t: State)
    requires Init(s) && Run(s, steps, t)
    ensures Inv(t)
  {
    hide Run, Inv, Init;
    Starts(s);
    Reachable(s, steps, t);
  }

  // ---- the promises ----

  /** A read that finishes has exactly the next n bytes of the stream, all of them published. */
  lemma ReadsPublished(s: State, steps: seq<Step>, t: State)
    requires Init(s) && Run(s, steps, t) && Enabled(t, Finish)
    ensures t.reader.start + t.reader.n <= t.published <= |t.all|
    ensures t.reader.got == t.all[t.reader.start..t.reader.start + t.reader.n]
    ensures t.delivered == t.all[..t.reader.start]
  {
    hide Run, Init, Unread, From;
    FromInit(s, steps, t);
  }

  /**
   Whatever a peek has collected at any moment, block by block or byte by byte, is published and next in the stream:
   PeekBlocks gives a prefix of the published bytes even where a node already holds more.
   */
  lemma PeeksPublished(s: State, steps: seq<Step>, t: State)
    requires Init(s) && Run(s, steps, t) && t.reader.Reading? && !t.reader.consume
    ensures t.gone + |t.reader.got| <= t.published <= |t.all|
    ensures t.reader.got == t.all[t.gone..t.gone + |t.reader.got|]
    ensures Enabled(t, Block) ==> t.gone + |t.reader.got| + Cut(t) <= t.published
  {
    hide Run, Init, Unread, From;
    FromInit(s, steps, t);
  }

  lemma Then(s: State, steps: seq<Step>, t: State, a: Step) returns (more: seq<Step>, u: State)
    requires Run(s, steps, t) && Enabled(t, a)
    ensures u == Next(t, a) && Run(s, more, u) && more == steps + [a]
  {
    u, more := Next(t, a), steps + [a];
    Append(s, steps, t, a);
  }

  lemma {:induction false} Append(s: State, steps: seq<Step>, t: State, a: Step)
    requires Run(s, steps, t) && Enabled(t, a)
    ensures Run(s, steps + [a], Next(t, a))
    decreases |steps|
  {
    if steps == [] {
      assert (steps + [a])[1..] == [] && Run(Next(t, a), [], Next(t, a));
    } else {
      assert (steps + [a])[1..] == steps[1..] + [a];
      Append(Next(s, steps[0]), steps[1..], t, a);
    }
  }

  /** A copying writer puts one byte into a node of two. */
  lemma RaiseOne(s: State) returns (steps: seq<Step>, t: State)
    requires Init(s) && s.limit == 0
    ensures Run(s, steps, t) && t.nodes == [s.nodes[0], Node([0, 0], 0, 1)] && t.rnode == 0 == t.wnode == t.rlen
    ensures t.published == 0 == t.gone && t.writer == Writing(1, 1) && t.reader.NotReading?
  {
    assert Run(s, [], s);
    hide Run;
    steps, t := Then(s, [], s, BeginWrite(2));
    steps, t := Then(s, steps, t, AddNode([0, 0]));
    steps, t := Then(s, steps, t, Raise(1, 1));
  }

  /** And publishes it. */
  lemma PublishOne(s: State) returns (steps: seq<Step>, t: State)
    requires Init(s) && s.limit == 0
    ensures Run(s, steps, t) && t.nodes == [s.nodes[0], Node([0, 0], 0, 1)] && t.rnode == 0 && t.wnode == 1 == t.rlen
    ensures t.published == 1 && t.gone == 0 && t.writer == Writing(1, 0) && t.reader.NotReading?
  {
    hide Run, Init;
    StartsEmpty(s);
    steps, t := RaiseOne(s);
    steps, t := Then(s, steps, t, Advance(1));
    steps, t := Then(s, steps, t, Publish);
  }

  /**
   The cut of PeekBlocks is needed: a copying writer can leave a node with more bytes than are published, and a
   reader that took the whole node would take bytes that rlen does not count yet.
   */
  lemma CutActs(s: State) returns (steps: seq<Step>, t: State)
    requires Init(s) && s.limit == 0
    ensures Run(s, steps, t) && Enabled(t, Block)
    ensures t.gone + |t.reader.got| + Cut(t) == t.published
    ensures t.gone + |t.reader.got| + (t.nodes[t.reader.cur].w - t.reader.off) > t.published
  {
    hide Run, Init;
    StartsEmpty(s);
    steps, t := PublishOne(s);
    steps, t := Then(s, steps, t, Raise(1, 1));
    steps, t := Then(s, steps, t, Check(1, false));
    steps, t := Then(s, steps, t, Hop);
  }

  lemma StartsEmpty(s: State)
    requires Init(s)
    ensures |s.nodes| == 1 && s.nodes[0].r == 0 == s.nodes[0].w
  {}

  predicate WriterStep(a: Step) {
    a.BeginWrite? || a.AddNode? || a.Store? || a.Raise? || a.Link? || a.Advance? || a.Publish? || a.EndWrite?
  }

  /**
   The writer leaves alone what the reader may have seen of a node: its read offset and the bytes below its write
   offset, which only grows, and every part of a node before the write node.
   */
  lemma WriterLeaves(s: State, a: Step, i: nat)
    requires Inv(s) && Enabled(s, a) && WriterStep(a) && i < |s.nodes|
    ensures var t := Next(s, a);
      && |s.nodes| <= |t.nodes| && s.wnode <= t.wnode && t.nodes[i].r == s.nodes[i].r
      && s.nodes[i].w <= t.nodes[i].w <= |t.nodes[i].mem| && s.nodes[i].w <= |s.nodes[i].mem|
      && t.nodes[i].mem[..s.nodes[i].w] == s.nodes[i].mem[..s.nodes[i].w]
      && (i < s.wnode ==> t.nodes[i] == s.nodes[i])
  {
    hide Unread, From;
    NodesOk(s);
  }

  /** Consuming reads return the stream in order, each byte once, and never beyond what is published. */
  lemma DeliversPrefix(s: State, steps: seq<Step>, t: State)
    requires Init(s) && Run(s, steps, t)
    ensures t.delivered <= t.all && |t.delivered| <= t.published <= |t.all|
    ensures t.reader.NotReading? ==> t.rlen == t.published - |t.delivered|
  {
    hide Run, Init, Unread, From;
    FromInit(s, steps, t);
  }

  /** The reader never passes the write node, and finds the next node whenever it needs one. */
  lemma ReaderBehindWriter(s: State, steps: seq<Step>, t: State)
    requires Init(s) && Run(s, steps, t)
    ensures t.head <= t.rnode <= t.wnode < |t.nodes|
    ensures t.reader.Reading? ==> t.rnode <= t.reader.cur <= t.wnode
    ensures t.reader.Reading? && |t.reader.got| < t.reader.n ==> Enabled(t, Hop) || Enabled(t, Take(1))
  {
    hide Run, Init, Unread, From;
    FromInit(s, steps, t);
    if t.reader.Reading? && |t.reader.got| < t.reader.n && t.nodes[t.reader.cur].w == t.reader.off { MoreAhead(t); }
  }

  /** The node a step touches. */
  predicate Touches(s: State, a: Step, i: nat) {
    match a
    case Store(j, _, _) => i == j
    case Raise(j, _) => i == j
    case Link(j, _) => i == j
    case Advance(j) => i == j
    case AddNode(_) => i + 1 == |s.nodes|
    case Hop => s.reader.Reading? && (i == s.reader.cur || i == s.reader.cur + 1)
    case Take(_) => s.reader.Reading? && i == s.reader.cur
    case Block => s.reader.Reading? && i == s.reader.cur
    case Rewind => i == s.wnode
    case _ => false
  }

  lemma InOrder(t: State)
    requires Inv(t)
    ensures t.head <= t.rnode <= t.wnode < |t.nodes| && (t.reader.Reading? ==> t.rnode <= t.reader.cur)
  {}

  /** No step touches a freed node, and freeing a node does not take one the writer or the reader may still touch. */
  lemma FreedIsFree(s: State, steps: seq<Step>, t: State, a: Step, i: nat)
    requires Init(s) && Run(s, steps, t) && Enabled(t, a) && Touches(t, a, i)
    ensures t.head <= i
    ensures Enabled(t, FreeHead) ==> t.head < i
  {
    hide Run, Init, Inv;
    FromInit(s, steps, t);
    InOrder(t);
  }

  /** With WritevLimited as the only writer, the buffer never holds more than its limit. */
  lemma WithinLimit(s: State, steps: seq<Step>, t: State)
    requires Init(s) && Run(s, steps, t) && s.limit > 0
    ensures t.limit == s.limit && 0 <= t.rlen <= t.limit
  {
    hide Run, Init, Unread, From;
    FromInit(s, steps, t);
    SameLimit(s, steps, t);
  }

  lemma {:induction false} SameLimit(s: State, steps: seq<Step>, t: State)
    requires Run(s, steps, t)
    ensures t.limit == s.limit
    decreases |steps|
  {
    if steps != [] { SameLimit(Next(s, steps[0]), steps[1..], t); }
  }

  // ---- what the steps say ----

  /** The check that began the last read, if there was one. */
  function LastCheck(steps: seq<Step>): seq<Step> {
    if steps == [] then [] else
      var later := LastCheck(steps[1..]);
      if later != [] then later else if steps[0].Check? then [steps[0]] else []
  }

  /** How many bytes finished consuming reads asked for, when one that asked for so many is under way. */
  function Finished(steps: seq<Step>, pending: nat): nat
    decreases |steps|
  {
    if steps == [] then 0 else
      match steps[0]
      case Check(n, consume) => Finished(steps[1..], if consume then n else 0)
      case Finish => pending + Finished(steps[1..], 0)
      case Stop => Finished(steps[1..], 0)
      case _ => Finished(steps[1..], pending)
  }

  function Pending(s: State): nat {
    if s.reader.Reading? && s.reader.consume then s.reader.n else 0
  }

  /** What a step of the writer brings below a write offset. */
  function AddedBy(s: State, a: Step): seq<byte>
    requires Enabled(s, a)
  {
    match a
    case Raise(i, k) => s.nodes[i].mem[s.nodes[i].w..s.nodes[i].w + k]
    case Link(_, bs) => bs
    case _ => []
  }

  ghost function Added(s: State, steps: seq<Step>, t: State): seq<byte>
    requires Run(s, steps, t)
    decreases |steps|
  {
    if steps == [] then [] else AddedBy(s, steps[0]) + Added(Next(s, steps[0]), steps[1..], t)
  }

  lemma RunParts(s: State, steps: seq<Step>, t: State)
    requires Run(s, steps, t) && steps != []
    ensures Enabled(s, steps[0]) && Run(Next(s, steps[0]), steps[1..], t)
  {
    hide Next, Enabled;
  }

  lemma StepFacts(s: State, a: Step)
    requires Enabled(s, a)
    ensures var t := Next(s, a);
      && t.all == s.all + AddedBy(s, a)
      && (a.Finish? ==> |s.reader.got| == s.reader.n)
      && |t.delivered| == |s.delivered| + (if a.Finish? then Pending(s) else 0)
  {}

  /** Who wants what after a step. */
  lemma AskedNext(s: State, a: Step)
    requires Enabled(s, a)
    ensures var t := Next(s, a);
      && Pending(t) == (if a.Check? then (if a.consume then a.n else 0)
                        else if a.Finish? || a.Stop? then 0 else Pending(s))
      && (t.reader.Reading? ==>
            if a.Check? then a == Check(t.reader.n, t.reader.consume)
            else s.reader.Reading? && s.reader.n == t.reader.n && s.reader.consume == t.reader.consume)
  {}

  lemma {:induction false} AskedRun(s: State, steps: seq<Step>, t: State)
    requires Run(s, steps, t)
    ensures t.reader.Reading? ==>
      if LastCheck(steps) != [] then LastCheck(steps) == [Check(t.reader.n, t.reader.consume)]
      else s.reader.Reading? && s.reader.n == t.reader.n && s.reader.consume == t.reader.consume
    decreases |steps|
  {
    if steps != [] {
      hide Next, Enabled, Run;
      RunParts(s, steps, t);
      AskedNext(s, steps[0]);
      AskedRun(Next(s, steps[0]), steps[1..], t);
    }
  }

  lemma {:induction false} FinishedRun(s: State, steps: seq<Step>, t: State)
    requires Run(s, steps, t)
    ensures |t.delivered| == |s.delivered| + Finished(steps, Pending(s))
    decreases |steps|
  {
    if steps != [] {
      hide Next, Enabled, Run, Pending;
      RunParts(s, steps, t);
      StepFacts(s, steps[0]);
      AskedNext(s, steps[0]);
      FinishedRun(Next(s, steps[0]), steps[1..], t);
    }
  }

  lemma AddedParts(s: State, steps: seq<Step>, t: State)
    requires Run(s, steps, t) && steps != []
    ensures Enabled(s, steps[0]) && Run(Next(s, steps[0]), steps[1..], t)
    ensures Added(s, steps, t) == AddedBy(s, steps[0]) + Added(Next(s, steps[0]), steps[1..], t)
  {
    hide Next, Enabled, AddedBy;
  }

  lemma Regroup(a: seq<byte>, b: seq<byte>, c: seq<byte>)
    ensures a + b + c == a + (b + c)
  {}

  lemma {:induction false} AddedRun(s: State, steps: seq<Step>, t: State)
    requires Run(s, steps, t)
    ensures t.all == s.all + Added(s, steps, t)
    decreases |steps|
  {
    if steps != [] {
      RunParts(s, steps, t);
      AddedParts(s, steps, t);
      hide Next, Enabled, AddedBy, Run, Added;
      StepFacts(s, steps[0]);
      AddedRun(Next(s, steps[0]), steps[1..], t);
      Regroup(s.all, AddedBy(s, steps[0]), Added(Next(s, steps[0]), steps[1..], t));
    }
  }

  /**
   Over every interleaving, a reader wants what it asked for; the stream is what the writer put below write offsets;
   and finished consuming reads have returned, in all, the first bytes of it, as many as they asked for.
   */
  lemma Accounts(s: State, steps: seq<Step>, t: State)
    requires Init(s) && Run(s, steps, t)
    ensures t.reader.Reading? ==> LastCheck(steps) == [Check(t.reader.n, t.reader.consume)]
    ensures t.all == Added(s, steps, t) && Finished(steps, 0) <= t.published <= |t.all|
    ensures t.delivered == t.all[..Finished(steps, 0)]
  {
    AskedRun(s, steps, t);
    FinishedRun(s, steps, t);
    AddedRun(s, steps, t);
    hide Run, Added, Finished, LastCheck;
    DeliversPrefix(s, steps, t);
  }

  // ---- calls that run to their end ----

  /** All steps are of the writer, or all of the reader. */
  ghost predicate Only(steps: seq<Step>, writer: bool) {
    forall a | a in steps :: WriterStep(a) == writer
  }

  lemma On(s: State, steps: seq<Step>, t: State, a: Step, writer: bool) returns (more: seq<Step>, u: State)
    requires Run(s, steps, t) && Enabled(t, a) && Only(steps, writer) && WriterStep(a) == writer
    ensures u == Next(t, a) && Run(s, more, u) && Only(more, writer) && more == steps + [a]
  {
    more, u := Then(s, steps, t, a);
  }

  lemma Start(s: State)
    ensures Run(s, [], s)
  {}

  /** The writer is done with a new last node: it makes it the write node, publishes, and leaves. */
  lemma PublishAlone(s: State, xs: seq<Step>, t: State) returns (steps: seq<Step>, u: State)
    requires Run(s, xs, t) && Only(xs, true) && t.writer.Writing? && t.wnode < |t.nodes|
    ensures Run(s, steps, u) && Only(steps, true)
    ensures u == t.(wnode := |t.nodes| - 1, rlen := t.rlen + t.writer.ahead, published := t.published + t.writer.ahead,
                    writer := NotWriting)
  {
    hide Run;
    steps, u := On(s, xs, t, Advance(|t.nodes| - 1), true);
    steps, u := On(s, steps, u, Publish, true);
    steps, u := On(s, steps, u, EndWrite, true);
  }

  /** What a write of bytes to a new node does, whether it links or copies them. */
  function WrittenTo(s: State, mem: seq<byte>): State {
    s.(nodes := s.nodes + [Node(mem, 0, |mem|)], wnode := |s.nodes|, all := s.all + mem,
       rlen := s.rlen + |mem|, published := s.published + |mem|)
  }

  /** From every state without a writer, linking bytes to a new node publishes exactly them. */
  lemma LinkAlone(s: State, bs: seq<byte>) returns (steps: seq<Step>, t: State)
    requires s.writer.NotWriting? && s.wnode < |s.nodes| && (s.limit > 0 ==> |bs| <= s.limit - s.rlen)
    ensures Run(s, steps, t) && Only(steps, true) && t == WrittenTo(s, bs)
  {
    Start(s);
    hide Run;
    steps, t := On(s, [], s, BeginWrite(|bs|), true);
    steps, t := On(s, steps, t, AddNode([]), true);
    steps, t := On(s, steps, t, Link(|s.nodes|, bs), true);
    steps, t := PublishAlone(s, steps, t);
    assert t.nodes == s.nodes + [Node(bs, 0, |bs|)];
  }

  /** The writer stores bytes of text from position pos on. */
  lemma {:induction false} StoreAll(s: State, xs: seq<Step>, t: State, text: seq<byte>, pos: nat)
      returns (steps: seq<Step>, u: State)
    requires Run(s, xs, t) && Only(xs, true) && t.writer.Writing? && t.wnode < |t.nodes| && pos <= |text|
    requires t.nodes[|t.nodes| - 1].w == 0 && |t.nodes[|t.nodes| - 1].mem| == |text|
    requires t.nodes[|t.nodes| - 1].mem[..pos] == text[..pos]
    ensures Run(s, steps, u) && Only(steps, true)
    ensures u == t.(nodes := t.nodes[|t.nodes| - 1 := t.nodes[|t.nodes| - 1].(mem := text)])
    decreases |text| - pos
  {
    var i := |t.nodes| - 1;
    if pos == |text| {
      steps, u := xs, t;
      assert t.nodes[i].mem == text;
    } else {
      hide Run;
      steps, u := On(s, xs, t, Store(i, pos, text[pos]), true);
      steps, u := StoreAll(s, steps, u, text, pos + 1);
    }
  }

  /** From every state without a writer, copying bytes into a new node publishes exactly them. */
  lemma CopyAlone(s: State, text: seq<byte>) returns (steps: seq<Step>, t: State)
    requires s.writer.NotWriting? && s.wnode < |s.nodes| && (s.limit > 0 ==> |text| <= s.limit - s.rlen)
    ensures Run(s, steps, t) && Only(steps, true) && t == WrittenTo(s, text)
  {
    Start(s);
    hide Run;
    steps, t := On(s, [], s, BeginWrite(|text|), true);
    steps, t := On(s, steps, t, AddNode(seq(|text|, _ => 0)), true);
    steps, t := StoreAll(s, steps, t, text, 0);
    steps, t := On(s, steps, t, Raise(|s.nodes|, |text|), true);
    steps, t := PublishAlone(s, steps, t);
    assert t.nodes == s.nodes + [Node(text, 0, |text|)];
    assert text[0..0 + |text|] == text;
  }

  /** A read at any point gets the rest of its bytes by its own steps; a peek can do so block by block. */
  lemma {:induction false} ReadsOn(s: State, xs: seq<Step>, t: State, blocks: bool) returns (steps: seq<Step>, u: State)
    requires Run(s, xs, t) && Only(xs, false) && Inv(t) && t.reader.Reading? && (blocks ==> !t.reader.consume)
    requires blocks ==> forall a | a in xs :: !a.Take?
    ensures Run(s, steps, u) && Only(steps, false) && Inv(u)
    ensures blocks ==> forall a | a in steps :: !a.Take?
    ensures u.reader.Reading? && u.reader.n == t.reader.n == |u.reader.got| && u.reader.consume == t.reader.consume
    ensures u.reader.start == t.reader.start && u.all == t.all && u.writer == t.writer && u.delivered == t.delivered
    ensures u.published == t.published && u.rlen == t.rlen && u.rnode == t.rnode
    decreases |t.nodes| - t.reader.cur, t.reader.n - |t.reader.got|
  {
    hide Run, Inv, Next, Enabled;
    steps, u := xs, t;
    ReadingFacts(t);
    if |t.reader.got| < t.reader.n {
      var a := ReadStep(t, blocks);
      steps, u := On(s, xs, t, a, false);
      steps, u := ReadsOn(s, steps, u, blocks);
    }
  }

  /** The next step of a read that wants more: to the next node, or a byte or block of this one. */
  lemma ReadStep(t: State, blocks: bool) returns (a: Step)
    requires Inv(t) && t.reader.Reading? && |t.reader.got| < t.reader.n && (blocks ==> !t.reader.consume)
    ensures (a.Hop? || a.Block? || a.Take?) && (blocks ==> !a.Take?) && Enabled(t, a) && Inv(Next(t, a))
    ensures var u := Next(t, a);
      && u.reader.Reading? && u.reader.n == t.reader.n && u.reader.consume == t.reader.consume
      && u.reader.start == t.reader.start && u.all == t.all && u.writer == t.writer && u.delivered == t.delivered
      && u.published == t.published && u.rlen == t.rlen && u.rnode == t.rnode && |u.nodes| == |t.nodes|
      && (if a.Hop? then t.reader.cur < u.reader.cur < |t.nodes|
          else u.reader.cur == t.reader.cur && |t.reader.got| < |u.reader.got| <= t.reader.n)
  {
    hide Inv;
    a := CanRead(t, blocks);
    InvKept(t, a);
    ReadEffects(t, a);
  }

  lemma CanRead(t: State, blocks: bool) returns (a: Step)
    requires Inv(t) && t.reader.Reading? && |t.reader.got| < t.reader.n && (blocks ==> !t.reader.consume)
    ensures (a.Hop? || a.Block? || a == Take(1)) && (blocks ==> !a.Take?) && Enabled(t, a)
  {
    hide Inv;
    ReadingFacts(t);
    if t.nodes[t.reader.cur].w == t.reader.off { MoreAhead(t); }
    a := if t.nodes[t.reader.cur].w == t.reader.off then Hop else if blocks then Block else Take(1);
  }

  lemma ReadEffects(t: State, a: Step)
    requires Enabled(t, a) && (a.Hop? || a.Block? || a == Take(1))
    ensures var u := Next(t, a);
      && u.reader.Reading? && u.reader.n == t.reader.n && u.reader.consume == t.reader.consume
      && u.reader.start == t.reader.start && u.all == t.all && u.writer == t.writer && u.delivered == t.delivered
      && u.published == t.published && u.rlen == t.rlen && u.rnode == t.rnode && |u.nodes| == |t.nodes|
      && (!t.reader.consume ==> u == t.(reader := u.reader))
      && (if a.Hop? then u.reader.cur == t.reader.cur + 1 < |t.nodes|
          else u.reader.cur == t.reader.cur && |t.reader.got| < |u.reader.got| <= t.reader.n)
  {}

  lemma ReadingFacts(t: State)
    requires Inv(t) && t.reader.Reading?
    ensures AllOk(t.nodes) && t.reader.cur <= t.wnode < |t.nodes| && t.reader.off <= t.nodes[t.reader.cur].w
    ensures |t.reader.got| <= t.reader.n && t.reader.start + t.reader.n <= t.published <= |t.all|
    ensures t.reader.got == t.all[t.reader.start..t.reader.start + |t.reader.got|]
  {
    hide Unread, From;
  }

  /**
   From every reachable state without a reader, a read of n bytes that rlen counts runs to its end by its own steps, and
   a peek also when it takes blocks only. It has the next n bytes of the stream; a consuming one takes them off rlen.
   */
  lemma ReadAlone(s: State, steps: seq<Step>, t: State, n: nat, consume: bool, blocks: bool)
      returns (more: seq<Step>, got: seq<byte>, u: State)
    requires Init(s) && Run(s, steps, t) && t.reader.NotReading? && n <= t.rlen && (blocks ==> !consume)
    ensures EndsWith(t, more, got) && (blocks ==> forall a | a in more :: !a.Take?)
    ensures t.gone + n <= t.published <= |t.all| && got == t.all[t.gone..t.gone + n]
    ensures Run(t, more, u) && Only(more, false) && u.reader.NotReading? && u.all == t.all && u.writer == t.writer
    ensures u.rlen == t.rlen - (if consume then n else 0)
    ensures u.delivered == if consume then t.delivered + got else t.delivered
  {
    FromInit(s, steps, t);
    Start(t);
    hide Run, Inv, Init, EndsWith;
    more, u := ReadsAll(t, n, consume, blocks);
    ReadingFacts(u);
    got := u.reader.got;
    if consume { more, u := On(t, more, u, SetRnode, false); }
    LastStep(t, more, u, Finish);
    more, u := On(t, more, u, Finish, false);
  }

  /** A read up to its last byte. */
  lemma ReadsAll(t: State, n: nat, consume: bool, blocks: bool) returns (steps: seq<Step>, u: State)
    requires Inv(t) && t.reader.NotReading? && n <= t.rlen && (blocks ==> !consume)
    ensures Run(t, steps, u) && Only(steps, false) && Inv(u) && (blocks ==> forall a | a in steps :: !a.Take?)
    ensures u.reader.Reading? && u.reader.n == n == |u.reader.got| && u.reader.consume == consume
    ensures u.reader.start == t.gone && u.all == t.all && u.writer == t.writer && u.delivered == t.delivered
    ensures u.published == t.published && u.rlen == t.rlen
  {
    Start(t);
    InvKept(t, Check(n, consume));
    hide Run, Inv;
    steps, u := On(t, [], t, Check(n, consume), false);
    steps, u := ReadsOn(t, steps, u, blocks);
  }

  /** The reader frees every node before the read node. */
  lemma {:induction false} FreeAlone(s: State) returns (steps: seq<Step>, t: State)
    requires s.reader.NotReading? && s.head <= s.rnode
    ensures Run(s, steps, t) && Only(steps, false) && t == s.(head := s.rnode)
    decreases s.rnode - s.head
  {
    steps, t := [], s;
    if s.head < s.rnode {
      var more;
      more, t := FreeAlone(Next(s, FreeHead));
      steps := [FreeHead] + more;
      assert steps[1..] == more;
    }
  }

  function Blocks(steps: seq<Step>): nat {
    if steps == [] then 0 else (if steps[0].Block? then 1 else 0) + Blocks(steps[1..])
  }

  lemma {:induction false} BlocksMore(steps: seq<Step>, a: Step)
    ensures Blocks(steps + [a]) == Blocks(steps) + (if a.Block? then 1 else 0)
    decreases |steps|
  {
    if steps == [] {
      assert ([a])[1..] == [];
    } else {
      assert (steps + [a])[1..] == steps[1..] + [a];
      BlocksMore(steps[1..], a);
    }
  }

  /** A step of a peek changes nothing but the reader. */
  lemma PeekStep(t: State) returns (a: Step)
    requires Inv(t) && t.reader.Reading? && !t.reader.consume && |t.reader.got| < t.reader.n
    ensures (a.Hop? || a.Block?) && Enabled(t, a) && Inv(Next(t, a))
    ensures var u := Next(t, a);
      && u == t.(reader := u.reader) && u.reader.Reading? && !u.reader.consume
      && u.reader.n == t.reader.n && u.reader.start == t.reader.start
      && (if a.Hop? then t.reader.cur < u.reader.cur < |t.nodes|
          else u.reader.cur == t.reader.cur && |t.reader.got| < |u.reader.got| <= t.reader.n)
  {
    hide Inv;
    a := ReadStep(t, true);
    ReadEffects(t, a);
  }

  /** These steps end a read that has got these bytes. */
  ghost predicate EndsWith(s: State, steps: seq<Step>, got: seq<byte>) {
    steps != [] && exists v :: Run(s, steps[..|steps| - 1], v) && v.reader.Reading? && v.reader.got == got
  }

  lemma LastStep(s: State, xs: seq<Step>, t: State, a: Step)
    requires Run(s, xs, t) && t.reader.Reading?
    ensures EndsWith(s, xs + [a], t.reader.got)
  {
    hide Run;
    assert (xs + [a])[..|xs + [a]| - 1] == xs;
  }

  /** A peek goes on until it has taken so many blocks or all the bytes it counted, and leaves. */
  lemma {:induction false} BlocksOn(s: State, xs: seq<Step>, t: State, places: nat)
      returns (steps: seq<Step>, got: seq<byte>, u: State)
    requires Run(s, xs, t) && Only(xs, false) && Inv(t) && t.reader.Reading? && !t.reader.consume
    requires Blocks(xs) <= places
    ensures Run(s, steps, u) && Only(steps, false) && u == t.(reader := NotReading) && Blocks(steps) <= places
    ensures EndsWith(s, steps, got)
    ensures t.reader.start + |got| <= |t.all| && got == t.all[t.reader.start..t.reader.start + |got|]
    ensures |got| <= t.reader.n && (Blocks(steps) == places || |got| == t.reader.n)
    decreases |t.nodes| - t.reader.cur, t.reader.n - |t.reader.got|
  {
    hide Run, Inv, EndsWith;
    ReadingFacts(t);
    got := t.reader.got;
    if |t.reader.got| == t.reader.n || Blocks(xs) == places {
      var a := if |t.reader.got| == t.reader.n then Finish else Stop;
      steps, u := On(s, xs, t, a, false);
      BlocksMore(xs, a);
      LastStep(s, xs, t, a);
    } else {
      var a := PeekStep(t);
      BlocksMore(xs, a);
      hide Next, Enabled;
      steps, u := On(s, xs, t, a, false);
      steps, got, u := BlocksOn(s, steps, u, places);
    }
  }

  /**
   From every reachable state without a reader, PeekBlocks with so many places runs to its end by its own steps and
   changes nothing. It shows the next published bytes, and all of them unless it has run out of places.
   */
  lemma PeekBlocksAlone(s: State, steps: seq<Step>, t: State, places: nat)
      returns (more: seq<Step>, got: seq<byte>, u: State)
    requires Init(s) && Run(s, steps, t) && t.reader.NotReading?
    ensures Run(t, more, u) && Only(more, false) && u == t && Blocks(more) <= places
    ensures EndsWith(t, more, got)
    ensures t.gone <= t.published <= |t.all| && got <= t.all[t.gone..t.published]
    ensures Blocks(more) < places ==> got == t.all[t.gone..t.published]
  {
    FromInit(s, steps, t);
    hide Run, Inv, Init, EndsWith;
    var n := Unshown(t);
    more, u := PeekBegins(t, n);
    hide Next, Enabled;
    more, got, u := BlocksOn(t, more, u, places);
    PrefixOf(t.all, t.gone, t.published, got);
  }

  lemma PrefixOf(all: seq<byte>, gone: nat, published: nat, got: seq<byte>)
    requires gone + |got| <= published <= |all| && got == all[gone..gone + |got|]
    ensures got <= all[gone..published] && (|got| == published - gone ==> got == all[gone..published])
  {}

  lemma PeekBegins(t: State, n: nat) returns (steps: seq<Step>, u: State)
    requires Inv(t) && t.reader.NotReading? && n <= t.rlen
    ensures Run(t, steps, u) && Only(steps, false) && Inv(u) && Blocks(steps) == 0
    ensures u == t.(reader := u.reader) && u.reader.Reading? && !u.reader.consume
    ensures u.reader.n == n && u.reader.start == t.gone
  {
    hide Run, Inv;
    Start(t);
    InvKept(t, Check(n, false));
    steps, u := On(t, [], t, Check(n, false), false);
    BlocksMore([], Check(n, false));
  }

  lemma Unshown(t: State) returns (n: nat)
    requires Inv(t) && t.reader.NotReading?
    ensures n == t.rlen == t.published - t.gone && t.gone <= t.published <= |t.all|
  {
    hide Unread, From;
    n := t.published - t.gone;
  }

  /**
   With nothing unread, OptimizeMemory gives the write node its whole block back and leaves all else, or, when it cleans
   up, frees every node there was and leaves one empty node under all cursors.
   */
  lemma OptimizeAlone(s: State, cleanUp: bool, mem: seq<byte>) returns (steps: seq<Step>, t: State)
    requires s.reader.NotReading? && s.writer.NotWriting? && s.rlen == 0 && s.wnode < |s.nodes|
    ensures Run(s, steps, t) && Only(steps, false)
    ensures !cleanUp ==> t == s.(nodes := t.nodes) && |t.nodes| == |s.nodes|
                         && t.nodes[s.wnode] == Node(s.nodes[s.wnode].mem, 0, 0)
                         && forall i | 0 <= i < |s.nodes| && i != s.wnode :: t.nodes[i] == s.nodes[i]
    ensures cleanUp ==> t.head == t.rnode == t.wnode == |s.nodes| && t.nodes == s.nodes + [Node(mem, 0, 0)]
                        && t == s.(nodes := t.nodes, head := t.head, rnode := t.rnode, wnode := t.wnode)
  {
    Start(s);
    hide Run;
    steps, t := On(s, [], s, if cleanUp then CleanUp(mem) else Rewind, false);
  }
}
