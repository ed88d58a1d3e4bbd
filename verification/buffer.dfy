/** The linked buffer: a chain of nodes with four cursors, used as a byte stream and as a packet queue. */
module LinkedBuffer {
  import opened Bytes
  import opened BufferNode
  import opened Chain

  const BLOCK_SIZE: nat := 4096
  const MAX_FILL_LEN: nat := 262144
  /** One partly filled node and enough further nodes of the smallest size for MAX_FILL_LEN bytes. */
  const MAX_NODES: nat := 65
  const MAX_NODE_BLOCK_SIZE: nat := 131072
  const MAX_BUFFER_SIZE: nat := 10485760

  ghost predicate Holds(a: array?<byte>, lo: nat, s: seq<byte>)
    reads a
  {
    if a == null then s == [] else lo + |s| <= a.Length && a[lo..lo + |s|] == s
  }

  /** No node's memory changed its size. */
  ghost predicate SameCaps(before: seq<Cell>, after: seq<Cell>) {
    |before| == |after| && forall i | 0 <= i < |after| :: |after[i].bytes| == |before[i].bytes|
  }

  lemma SameCapsAll(a: seq<Cell>, b: seq<Cell>, c: seq<Cell>)
    ensures SameCaps(a, b) && SameCaps(b, c) ==> SameCaps(a, c)
    ensures SameCaps(a, a)
  {}

  lemma SameCapsAt(a: seq<Cell>, b: seq<Cell>, i: nat, c: Cell)
    requires SameCaps(a, b) && i < |b| && |c.bytes| == |b[i].bytes|
    ensures SameCaps(a, b[i := c])
  {}

  lemma HoldsAll(a: array<byte>)
    ensures Holds(a, 0, a[..])
  {}

  /** The block sizes a buffer can choose: 4096 doubled at most five times. */
  ghost predicate IsBlockSize(n: nat) {
    n in {4096, 8192, 16384, 32768, 65536, 131072}
  }

  /** What a caller's slices hold. */
  ghost function Texts(bs: seq<array<byte>>): (ts: seq<seq<byte>>)
    reads bs
    ensures |ts| == |bs| && forall i | 0 <= i < |bs| :: ts[i] == bs[i][..]
  {
    if bs == [] then [] else [bs[0][..]] + Texts(bs[1..])
  }

  /** The first ack bytes of text are in dst, if there is a dst, and the rest of it is as in base. */
  ghost predicate CopiedTo(dst: array?<byte>, text: seq<byte>, base: seq<byte>, ack: nat)
    reads dst
  {
    dst != null ==> Copied(dst[..], text, base, ack)
  }

  function Least(a: nat, b: nat): nat {
    if a < b then a else b
  }

  /** The bytes that fit into the slices. */
  ghost function TotalLen(vec: seq<Slice>): nat {
    if vec == [] then 0 else (if vec[0].lo <= vec[0].hi then vec[0].hi - vec[0].lo else 0) + TotalLen(vec[1..])
  }

  /** The windows of the nodes from the m-th on hold as much as is free there. */
  lemma {:induction false} WindowsFit(cs: seq<Cell>, m: nat, vec: seq<Slice>)
    requires m <= |cs| && |vec| == |cs| - m
    requires forall j | 0 <= j < |vec| :: vec[j] == Slice(cs[m + j].block, cs[m + j].w, |cs[m + j].bytes|)
    requires forall i | 0 <= i < |cs| :: cs[i].w <= |cs[i].bytes|
    ensures TotalLen(vec) == Space(cs, m).1
    decreases |vec|
  {
    if vec != [] {
      hide Room;
      RoomAt(cs, m);
      assert vec[0] == Slice(cs[m + 0].block, cs[m + 0].w, |cs[m + 0].bytes|);
      forall j | 0 <= j < |vec| - 1
        ensures vec[1..][j] == Slice(cs[m + 1 + j].block, cs[m + 1 + j].w, |cs[m + 1 + j].bytes|)
      {
        assert vec[1..][j] == vec[j + 1] == Slice(cs[m + (j + 1)].block, cs[m + (j + 1)].w, |cs[m + (j + 1)].bytes|);
      }
      WindowsFit(cs, m + 1, vec[1..]);
    }
  }

  /** Nodes kept their sizes, and new ones have this one. */
  ghost predicate Grown(before: seq<Cell>, after: seq<Cell>, size: nat) {
    && |before| <= |after|
    && forall i | 0 <= i < |after| :: |after[i].bytes| == if i < |before| then |before[i].bytes| else size
  }

  /** Nothing but read offsets changed. */
  ghost predicate OnlyRead(before: seq<Cell>, after: seq<Cell>) {
    |before| == |after| && forall i | 0 <= i < |after| :: after[i] == before[i].(r := after[i].r)
  }

  lemma OnlyReadAll(a: seq<Cell>, b: seq<Cell>, c: seq<Cell>)
    ensures OnlyRead(a, b) && OnlyRead(b, c) ==> OnlyRead(a, c)
    ensures OnlyRead(a, a)
  {}

  /** The slices are nonempty, in memory of one's own, and pairwise disjoint. */
  ghost predicate PrivateWindows(vec: seq<Slice>, own: set<object>) {
    && (forall j | 0 <= j < |vec| ::
          vec[j].arr != null && vec[j].arr in own && vec[j].InBounds() && vec[j].lo < vec[j].hi)
    && (forall i, j | 0 <= i < j < |vec| :: vec[i].arr != vec[j].arr)
  }

  lemma NoWindows(own: set<object>)
    ensures PrivateWindows([], own)
  {}

  /** Arrays with the given contents. */
  method ArraysOf(texts: seq<seq<byte>>) returns (bs: seq<array<byte>>)
    ensures fresh(bs) && Texts(bs) == texts
  {
    bs := [];
    for i := 0 to |texts|
      invariant |bs| == i && fresh(bs) && forall j | 0 <= j < i :: bs[j][..] == texts[j]
    {
      var b := new byte[|texts[i]|](j requires 0 <= j < |texts[i]| => texts[i][j]);
      assert b[..] == texts[i];
      bs := bs + [b];
    }
  }

  function ByteSlicesLen(bs: seq<array<byte>>): nat {
    if bs == [] then 0 else bs[0].Length + ByteSlicesLen(bs[1..])
  }

  lemma {:induction false} LenOfTexts(bs: seq<array<byte>>)
    ensures ByteSlicesLen(bs) == |Flat(Texts(bs))|
  {
    if bs != [] {
      LenOfTexts(bs[1..]);
      assert Texts(bs)[1..] == Texts(bs[1..]);
    }
  }

  /** Go's built-in copy of a slice that fits. */
  method CopyTo(dst: array<byte>, at: nat, s: Slice)
    requires s.InBounds() && at + (s.hi - s.lo) <= dst.Length && s.arr != dst
    modifies dst
    ensures dst[..] == old(dst[..])[..at] + old(s.Bytes()) + old(dst[..])[at + (s.hi - s.lo)..]
  {
    if s.arr != null {
      forall j | 0 <= j < s.hi - s.lo { dst[at + j] := s.arr[s.lo + j]; }
    }
  }

  /** Writes x into a block at an offset. */
  method WriteBytes(a: array<byte>, at: nat, x: seq<byte>)
    requires at + |x| <= a.Length
    modifies a
    ensures a[..] == old(a[..])[..at] + x + old(a[..])[at + |x|..]
    ensures forall j | 0 <= j < at :: a[j] == old(a[j])
  {
    forall j | 0 <= j < |x| { a[at + j] := x[j]; }
  }

  /** Copies one more piece of a text that is being gathered in dst. */
  method CopyNext(dst: array<byte>, at: nat, s: Slice, ghost text: seq<byte>, ghost base: seq<byte>)
    requires s.InBounds() && s.arr != dst && |base| == dst.Length
    requires at + (s.hi - s.lo) <= dst.Length && at + (s.hi - s.lo) <= |text|
    requires s.Bytes() == text[at..][..s.hi - s.lo]
    requires Copied(dst[..], text, base, at)
    modifies dst
    ensures Copied(dst[..], text, base, at + (s.hi - s.lo))
  {
    hide Copied;
    CopyStep(dst[..], text, base, at, s.Bytes());
    CopyTo(dst, at, s);
  }

  /** A chain of new nodes from h to t that carry callers' memory. */
  ghost predicate Chained(h: Node?, t: Node?, cn: seq<Node>, ds: seq<Cell>)
    reads cn
  {
    && |cn| == |ds|
    && (if cn == [] then h == null && t == null else h == cn[0] && t == cn[|cn| - 1])
    && (forall i, j | 0 <= i < j < |cn| :: cn[i] != cn[j])
    && (forall i | 0 <= i < |cn| ::
          cn[i].block == ds[i].block && cn[i].r == ds[i].r && cn[i].w == ds[i].w && cn[i].recycle == ds[i].recycle)
    && (forall i {:trigger cn[i].next} | 0 <= i < |cn| :: cn[i].next == (if i + 1 < |cn| then cn[i + 1] else null))
  }

  /** Cells for the nonempty slices. */
  ghost function LinkedCells(bs: seq<array<byte>>): (ds: seq<Cell>)
    reads bs
    ensures forall i | 0 <= i < |ds| ::
      ds[i].Ok() && !ds[i].recycle && ds[i].r == 0 && ds[i].block != null && ds[i].block in bs
    ensures forall i | 0 <= i < |ds| :: Holds(ds[i].block, 0, ds[i].bytes)
  {
    if bs == [] then [] else
    LinkedCells(bs[..|bs| - 1]) + if bs[|bs| - 1].Length == 0 then [] else [LinkedCell(bs[|bs| - 1], bs[|bs| - 1][..])]
  }

  lemma {:induction false} LinkedCellsText(bs: seq<array<byte>>)
    ensures Packets(LinkedCells(bs)) == NonEmpty(Texts(bs)) && Stream(LinkedCells(bs)) == Flat(Texts(bs))
  {
    hide Flat, NonEmpty, Texts;
    if bs == [] {
      assert Texts(bs) == [] == Datas(LinkedCells(bs));
    } else {
      var b, rest := bs[|bs| - 1], bs[..|bs| - 1];
      LinkedCellsText(rest);
      assert Texts(bs) == Texts(rest) + [b[..]];
      assert b.Length == 0 ==> LinkedCells(bs) == LinkedCells(rest) && b[..] == [];
      FlatConcat(Texts(rest), [b[..]]);
      NonEmptyConcat(Texts(rest), [b[..]]);
      Single(b[..]);
      if b.Length > 0 {
        var c := LinkedCell(b, b[..]);
        assert c.Data() == b[..];
        assert Datas(LinkedCells(bs)) == Datas(LinkedCells(rest)) + [b[..]];
        FlatConcat(Datas(LinkedCells(rest)), [b[..]]);
        NonEmptyConcat(Datas(LinkedCells(rest)), [b[..]]);
      }
    }
  }

  /** One more node at the end of a chain. */
  method ChainNode(h: Node?, t: Node?, b: array<byte>, ghost cn: seq<Node>, ghost ds: seq<Cell>) returns (n: Node)
    requires Chained(h, t, cn, ds)
    modifies t
    ensures fresh(n) && Chained(if h == null then n else h, n, cn + [n], ds + [LinkedCell(b, b[..])])
  {
    n := new Node();
    ghost var freed := n.SetBlock(b);
    assert n !in cn;
    if t != null { t.next := n; }
    forall i | 0 <= i < |cn| ensures (cn + [n])[i] == cn[i] && cn[i] != n { assert cn[i] in cn; }
  }

  lemma ChainEnd(h: Node?, t: Node?, cn: seq<Node>, ds: seq<Cell>)
    requires Chained(h, t, cn, ds)
    ensures t != null ==> t in cn
    ensures (h == null <==> cn == []) && (t == null <==> cn == [])
    ensures |cn| == |ds|
  {}

  /** The chain that linkWithNewNodes builds. */
  method BuildChain(bs: seq<array<byte>>) returns (h: Node?, t: Node?, dataLen: nat, ghost cn: seq<Node>)
    ensures Chained(h, t, cn, LinkedCells(bs)) && dataLen == ByteSlicesLen(bs)
    ensures forall n | n in cn :: fresh(n)
  {
    hide Holds, LinkedCells, Chained, ByteSlicesLen, LinkedCell;
    h, t, dataLen, cn := null, null, 0, [];
    ghost var ds := LinkedCells(bs[..0]);
    NoCells(bs[..0]);
    for i := 0 to |bs|
      invariant ds == LinkedCells(bs[..i]) && Chained(h, t, cn, ds) && dataLen == ByteSlicesLen(bs[..i])
      invariant forall n | n in cn :: fresh(n)
    {
      ChainEnd(h, t, cn, ds);
      LinkedCellsTo(bs, i);
      LenTo(bs, i);
      if bs[i].Length != 0 {
        var n := ChainNode(h, t, bs[i], cn, ds);
        cn, ds := cn + [n], ds + [LinkedCell(bs[i], bs[i][..])];
        if h == null { h := n; }
        t := n;
        dataLen := dataLen + bs[i].Length;
      }
    }
    assert bs[..|bs|] == bs;
  }

  lemma NoCells(bs: seq<array<byte>>)
    requires bs == []
    ensures Chained(null, null, [], LinkedCells(bs)) && ByteSlicesLen(bs) == 0
  {}

  lemma LinkedCellsTo(bs: seq<array<byte>>, i: nat)
    requires i < |bs|
    ensures LinkedCells(bs[..i + 1]) == LinkedCells(bs[..i]) + if bs[i].Length == 0 then [] else [LinkedCell(bs[i],
      bs[i][..])]
  {
    assert bs[..i + 1][..i] == bs[..i];
  }

  lemma {:induction false} LenTo(bs: seq<array<byte>>, i: nat)
    requires i < |bs|
    ensures ByteSlicesLen(bs[..i + 1]) == ByteSlicesLen(bs[..i]) + bs[i].Length
  {
    if i > 0 {
      assert bs[..i + 1][1..] == bs[1..][..i] && bs[..i][1..] == bs[1..][..i - 1];
      LenTo(bs[1..], i - 1);
    }
  }

  /** How many nodes the write node moves on when slices are linked, with so many nodes after it. */
  function LinkMoves(slices: nat, unwritten: bool, after: nat): (m: nat)
    ensures m <= after
  {
    var wanted := if unwritten && slices > 0 then slices - 1 else slices;
    if wanted < after then wanted else after
  }

  class Buffer {
    var head: Node?
    var rnode: Node?
    var wnode: Node?
    var tail: Node?
    var rlen: nat
    var wlen: int
    var nodeBlockSize: nat
    var auto: bool

    /** The nodes from head to tail, their values, and the places of the read and write nodes. */
    ghost var nodes: seq<Node>
    ghost var cells: seq<Cell>
    ghost var ri: nat
    ghost var wi: nat
    /** Slices lent since the last release. */
    ghost var loans: set<Loan>
    /** Whether a caller's memory was ever linked, and whether Fill was ever used. */
    ghost var linked: bool
    ghost var filled: bool
    /** Nodes and blocks the buffer may change; memory it only reads; blocks it has returned to the pool. */
    ghost var Repr: set<object>
    ghost var Shared: set<array<byte>>
    ghost var Freed: multiset<array<byte>>

    ghost predicate Linked()
      reads this`head, this`tail, this`nodes, this`cells, this`Repr, Repr
    {
      && this !in Repr
      && |nodes| == |cells| > 0
      && head == nodes[0] && tail == nodes[|nodes| - 1]
      && (forall i, j | 0 <= i < j < |nodes| :: nodes[i] != nodes[j])
      && (forall i | 0 <= i < |nodes| ::
            && nodes[i] in Repr
            && nodes[i].block == cells[i].block
            && nodes[i].r == cells[i].r
            && nodes[i].w == cells[i].w
            && nodes[i].recycle == cells[i].recycle)
      && (forall i {:trigger nodes[i].next} | 0 <= i < |nodes| ::
            nodes[i].next == (if i + 1 < |nodes| then nodes[i + 1] else null))
    }

    ghost predicate Stored()
      reads this`cells, this`loans, this`Repr, this`Shared, Repr, Shared
    {
      && (forall i | 0 <= i < |cells| && cells[i].block != null :: cells[i].block in Repr || cells[i].block in Shared)
      && (forall l | l in loans :: l.arr in Repr || l.arr in Shared)
      && (forall i | 0 <= i < |cells| :: Holds(cells[i].block, 0, cells[i].bytes))
      && (forall l | l in loans :: Holds(l.arr, l.lo, l.bytes))
    }

    /** The chain is sound when its read position is k and its write position is m. */
    ghost predicate Inv(k: nat, m: nat)
      reads this`head, this`tail, this`nodes, this`cells, this`loans, this`Repr, this`Shared, this`Freed, Repr, Shared
    {
      && Linked() && Stored() && Ordered(cells, k, m)
      && Memory(cells, loans, Repr, Shared, Freed)
    }

    /** The chain is sound, rlen counts the unread bytes, and wlen the writable ones unless memory was linked. */
    ghost predicate Sound()
      reads this, Repr, Shared
    {
      && Inv(ri, wi)
      && ri <= wi < |nodes| == |cells|
      && rnode == nodes[ri] && wnode == nodes[wi]
      && rlen == |Contents()|
      && IsBlockSize(nodeBlockSize)
      && (!linked ==> Space(cells, wi) == (true, wlen))
    }

    /** The buffer's invariant: at most MAX_NODES nodes are writable, and without Fill only the last one. */
    ghost predicate Valid()
      reads this, Repr, Shared
    {
      && Sound()
      && |nodes| - wi <= MAX_NODES
      && (!filled ==> wi == |nodes| - 1)
    }

    /** The unread bytes as one stream. */
    ghost function Contents(): (s: seq<byte>)
      reads this`cells
    {
      Stream(cells)
    }

    /** The unread bytes as packets, one for each nonempty node. */
    ghost function Blocks(): (s: seq<seq<byte>>)
      reads this`cells
    {
      Packets(cells)
    }

    /** The slice holds these bytes, and the buffer has promised to keep them. */
    ghost predicate Lent(s: Slice, bytes: seq<byte>)
      reads this`loans, s.arr
    {
      && s.InBounds() && s.Bytes() == bytes
      && (bytes != [] ==> s.arr != null && Loan(s.arr, s.lo, bytes) in loans)
    }

    // ---- invariant lemmas ----

    /** What the invariant says about one node. */
    lemma NodeOk(k: nat, m: nat, i: nat)
      requires Inv(k, m) && i < |nodes|
      ensures this !in Repr && k <= m < |nodes| == |cells| && nodes[i].Ok() && cells[i].Ok() && nodes[i] in Repr
      ensures nodes[i].block == cells[i].block && nodes[i].r == cells[i].r
      ensures nodes[i].w == cells[i].w && nodes[i].recycle == cells[i].recycle
      ensures nodes[i].next == (if i + 1 < |nodes| then nodes[i + 1] else null)
      ensures nodes[i].Data() == cells[i].Data()
      ensures nodes[i].block == null || nodes[i].block in Repr || nodes[i].block in Shared
    {
      assert Holds(cells[i].block, 0, cells[i].bytes);
    }

    /** What the buffer's invariant says about the cursors and one node. */
    lemma NodeIn(i: nat)
      requires Sound() && i < |nodes|
      ensures |nodes| == |cells| && nodes[i].Ok() && cells[i].Ok() && nodes[i] in Repr
      ensures nodes[i].block == cells[i].block && nodes[i].r == cells[i].r
      ensures nodes[i].w == cells[i].w && nodes[i].recycle == cells[i].recycle
      ensures nodes[i].next == (if i + 1 < |nodes| then nodes[i + 1] else null)
      ensures nodes[i].Data() == cells[i].Data()
      ensures nodes[i].block == null || nodes[i].block in Repr || nodes[i].block in Shared
    {
      NodeOk(ri, wi, i);
    }

    /** Where the cursors stand: nothing is unread before the read node. */
    lemma Cursors()
      requires Sound()
      ensures this !in Repr && ri <= wi < |nodes| == |cells| && rnode == nodes[ri] && wnode == nodes[wi] &&
        rlen == |Contents()|
      ensures Stream(cells[..ri]) == [] && Packets(cells[..ri]) == []
    {
      NothingBefore(cells, ri, wi);
    }

    /** What a valid buffer is made of; methods that change one part take it apart and put it together again. */
    lemma Opened()
      requires Valid()
      ensures SoundParts() && |nodes| - wi <= MAX_NODES && (!filled ==> wi == |nodes| - 1) && this !in Repr
    {
      SoundOpened();
    }

    lemma Closed()
      requires SoundParts() && |nodes| - wi <= MAX_NODES && (!filled ==> wi == |nodes| - 1)
      ensures Valid()
    {}

    ghost predicate SoundParts()
      reads this, Repr, Shared
    {
      && Inv(ri, wi) && ri <= wi < |nodes| == |cells| && rnode == nodes[ri] && wnode == nodes[wi]
      && rlen == |Contents()| && IsBlockSize(nodeBlockSize) && (!linked ==> Space(cells, wi) == (true, wlen))
    }

    lemma SoundOpened()
      requires Sound()
      ensures SoundParts() && this !in Repr
    {
      NodeOk(ri, wi, ri);
    }

    lemma SoundClosed()
      requires SoundParts()
      ensures Sound()
    {}

    /** Past a node that is read out there is another one, while anything is unread. */
    lemma ReadFurther(k: nat)
      requires Inv(k, wi) && k < |cells| && cells[k].r == cells[k].w && Contents() != []
      ensures k < wi && Inv(k + 1, wi)
    {
      hide Stream, Memory, Linked, Stored;
      ReadOn(cells, k, wi);
    }

    /** The read and the write node are one exactly when their places in the chain are. */
    lemma Apart()
      requires Valid()
      ensures (rnode == wnode <==> ri == wi) && ri <= wi
    {
      Opened();
      Distinct(ri, wi);
    }

    twostate lemma NodeChanged(k: nat)
      requires old(Linked()) && k < |nodes|
      requires nodes == old(nodes) && head == old(head) && tail == old(tail) && Repr == old(Repr)
      requires |cells| == |old(cells)| && cells == old(cells)[k := cells[k]]
      requires forall o | o in nodes && o != nodes[k] :: unchanged(o)
      requires nodes[k].next == old(nodes[k].next)
      requires nodes[k].block == cells[k].block && nodes[k].r == cells[k].r
      requires nodes[k].w == cells[k].w && nodes[k].recycle == cells[k].recycle
      ensures Linked()
    {
      forall i | 0 <= i < |nodes| && i != k ensures unchanged(nodes[i]) {
        assert nodes[i] in nodes;
      }
    }

    twostate lemma NothingWritten()
      requires old(Stored())
      requires old(Repr) <= Repr && old(Shared) <= Shared && loans == old(loans)
      requires |cells| == |old(cells)|
      requires forall i | 0 <= i < |cells| ::
        cells[i].block == old(cells)[i].block && cells[i].bytes == old(cells)[i].bytes
      requires forall a: array<byte> | a in old(Repr) || a in old(Shared) :: unchanged(a)
      ensures Stored()
    {}

    // ---- life cycle ----

    /** An initialised buffer. */
    constructor ()
      ensures Valid() && Contents() == [] && Blocks() == [] && loans == {} && fresh(Repr)
      ensures Shared == {} && Freed == multiset{}
      ensures !linked && !filled && auto && ri == 0 == wi && wnode != null && wnode.IsFull()
      ensures cells == [Cell(null, [], 0, 0, false)] && nodeBlockSize == BLOCK_SIZE
    {
      rlen, auto, nodes := 0, true, [];
      Repr, Shared, Freed, linked, filled := {}, {}, multiset{}, false, false;
      new;
      Dump();
    }

    // ---- reading ----

    method ReadAt(n: Node, num: nat, ghost k: nat) returns (s: Slice, err: Error)
      requires Inv(k, wi) && k <= wi < |cells| == |nodes| && n == nodes[k] && num <= n.Len()
      modifies n`r, this`cells
      ensures Inv(k, wi) && err == NoError
      ensures cells == old(cells)[k := ReadCell(old(cells)[k], num)]
      ensures num <= |old(Contents())| && Contents() == old(Contents())[num..]
      ensures wi < |cells| && Space(cells, wi) == old(Space(cells, wi))
      ensures s == Slice(n.block, old(n.r), n.r) && n.r == old(n.r) + num && s.InBounds()
      ensures s.Bytes() == old(Contents())[..num]
      ensures s.arr == null || s.arr in Repr || s.arr in Shared
    {
      hide Stream, Space, Ordered, Memory, Linked, Stored, Cell.Data, Copied;
      NodeOk(k, wi, k);
      ReadStep(cells, k, wi, num);
      ReadSpace(cells, k, wi, num);
      MemoryRead(cells, k, num, loans, Repr, Shared, Freed);
      s, err := n.Readn(num);
      cells := cells[k := ReadCell(cells[k], num)];
      NodeChanged(k);
      NothingWritten();
    }

    /** The loop of Peek, Next and ReadBlock that moves the read node to the first one with data. */
    method FirstUnread()
      requires Valid() && Contents() != []
      modifies this`rnode, this`ri
      ensures Valid() && 0 < rnode.Len()
    {
      hide Stream, Space, Ordered, Memory, Linked, Stored, Cell.Data, Copied, Valid, Sound, Inv, IsBlockSize;
      Opened();
      NodeOk(ri, wi, ri);
      while rnode.Len() == 0
        invariant Valid() && rnode != null && rnode.Ok()
        decreases wi - ri
      {
        Opened();
        NodeOk(ri, wi, ri);
        ReadFurther(ri);
        rnode := rnode.next;
        ri := ri + 1;
        NodeOk(ri, wi, ri);
        Closed();
      }
    }

    /** Lends bytes of node i that lie below its write offset. */
    ghost method LendFrom(n: Node, i: nat, lo: nat, bytes: seq<byte>)
      requires Valid() && i < |nodes| && n == nodes[i] && bytes != [] && n.block != null
      requires lo + |bytes| <= n.w && Holds(n.block, lo, bytes)
      modifies this`loans
      ensures Valid() && loans == old(loans) + {Loan(n.block, lo, bytes)}
    {
      hide Stream, Space, Ordered, Memory, Linked;
      NodeOk(ri, wi, i);
      Lend(cells, ri, wi, i, Loan(n.block, lo, bytes), loans, Repr, Shared, Freed);
      loans := loans + {Loan(n.block, lo, bytes)};
    }

    /** Lends a private copy. */
    ghost method LendFresh(a: array<byte>)
      requires Valid() && a !in Repr && a.Length > 0
      modifies this`loans, this`Shared
      ensures Valid() && Shared == old(Shared) + {a} && loans == old(loans) + {Loan(a, 0, a[..])}
    {
      hide Stream, Space, Ordered, Memory, Linked;
      NodeOk(ri, wi, ri);
      LendCopy(cells, Loan(a, 0, a[..]), loans, Repr, Shared, Freed);
      loans, Shared := loans + {Loan(a, 0, a[..])}, Shared + {a};
    }

    /** Copies one piece without taking it. */
    method GatherStep(node: Node, ack: nat, n: nat, res: array<byte>, ghost i: nat, ghost base: seq<byte>)
        returns (offset: nat)
      requires Valid() && i < |nodes| && node == nodes[i] && ack == |Stream(cells[..i])| < n <= |Contents()|
      requires res.Length == n == |base| && res !in Repr && res !in Shared && Copied(res[..], Contents(), base, ack)
      modifies res
      ensures Valid() && ack + offset <= n && Copied(res[..], Contents(), base, ack + offset)
      ensures ack + offset < n ==> ack + offset == |Stream(cells[..i + 1])|
    {
      hide Stream, Space, Ordered, Memory, Linked, Stored, Cell.Data, Copied, Sound, Inv;
      NodeIn(i);
      offset := node.Len();
      if ack + offset > n { offset := n - ack; }
      PieceAt(cells, i, offset);
      var s, err := node.Peek(offset);
      CopyNext(res, ack, s, Contents(), base);
    }

    /** The loop of Peek that copies the first n bytes together. */
    method Gather(n: nat, res: array<byte>)
      requires Valid() && n <= |Contents()| && res.Length == n && res !in Repr && res !in Shared
      modifies res
      ensures Valid() && Copied(res[..], Contents(), old(res[..]), n)
    {
      hide Stream, Space, Ordered, Memory, Linked, Stored, Cell.Data, Copied, Sound, Inv;
      Cursors();
      NodeIn(ri);
      var node, ack := rnode, 0;
      ghost var i, base := ri, res[..];
      CopyStart(base, Contents());
      while ack < n && node != null
        invariant Valid() && i <= |nodes| && node == if i < |nodes| then nodes[i] else null
        invariant ack <= n && (ack < n ==> ack == |Stream(cells[..i])|)
        invariant Copied(res[..], Contents(), base, ack)
        decreases |nodes| - i
      {
        var offset := GatherStep(node, ack, n, res, i, base);
        NodeIn(i);
        ack := ack + offset;
        node := node.next;
        i := i + 1;
      }
      if ack < n { StreamTo(cells, i); }
    }

    /** The first n bytes of the read node, lent without copying. */
    method PeekNode(n: nat) returns (s: Slice)
      requires Valid() && 0 < n <= rnode.Len() && n <= |Contents()|
      modifies this`loans
      ensures Valid() && old(loans) <= loans && Lent(s, Contents()[..n])
      ensures InPlace(s)
    {
      hide Stream, Space, Ordered, Memory, Linked, Stored, Cell.Data, Copied;
      NodeOk(ri, wi, ri);
      ReadStep(cells, ri, wi, n);
      var err;
      s, err := rnode.Peek(n);
      LendFrom(rnode, ri, rnode.r, s.Bytes());
    }

    /** The first n bytes, lent as a copy. */
    method PeekCopy(n: nat) returns (s: Slice)
      requires Valid() && 0 < n <= |Contents()|
      modifies this`loans, this`Shared
      ensures Valid() && old(loans) <= loans && Lent(s, Contents()[..n])
      ensures old(Shared) <= Shared && fresh(Shared - old(Shared))
      ensures s.arr != null && fresh(s.arr)
    {
      hide Stream, Space, Ordered, Memory, Linked, Stored, Cell.Data, Copied;
      var res := new byte[n];
      ghost var base := res[..];
      Gather(n, res);
      CopyEnd(res[..], Contents(), base, n);
      assert res[..n] == res[0..n] == res[..];
      LendFresh(res);
      s := Slice(res, 0, n);
    }

    /** The next n bytes, without advancing, and without copying when one node holds them all. */
    method Peek(n: int) returns (s: Slice, err: Error)
      requires Valid()
      modifies this`rnode, this`ri, this`loans, this`Shared
      ensures Valid() && old(loans) <= loans && old(Shared) <= Shared && fresh(Shared - old(Shared))
      ensures err == if n < 0 then ErrInvalidParam else if |Contents()| < n then ErrNoEnoughData else NoError
      ensures err == NoError ==> Lent(s, Contents()[..n])
      ensures n == 0 || err != NoError ==> ri == old(ri)
      ensures err == NoError && n > 0 ==> Blocks() != [] && s.arr != null && (fresh(s.arr) <==> |Blocks()[0]| < n)
    {
      hide Stream, Space, Packets, Ordered, Memory, Linked, Stored, Valid, Sound, Inv;
      Lengths();
      s, err := Slice(null, 0, 0), NoError;
      if n < 0 { return s, ErrInvalidParam; }
      if n == 0 { return; }
      if rlen < n { return s, ErrNoEnoughData; }
      s := PeekSome(n);
    }

    /** Shows the first bytes, in the read node or copied together. */
    method PeekSome(n: nat) returns (s: Slice)
      requires Valid() && 0 < n <= |Contents()|
      modifies this`rnode, this`ri, this`loans, this`Shared
      ensures Valid() && old(loans) <= loans && Lent(s, Contents()[..n])
      ensures old(Shared) <= Shared && fresh(Shared - old(Shared))
      ensures Blocks() != [] && s.arr != null && (fresh(s.arr) <==> |Blocks()[0]| < n)
    {
      hide Stream, Space, Packets, Ordered, Memory, Linked, Stored, Valid, Sound, Inv, Lent;
      FirstUnread();
      FirstPacket();
      if rnode.Len() >= n {
        s := PeekNode(n);
      } else {
        s := PeekCopy(n);
      }
    }

    /** Takes one piece from the read node, copying it when dst is given. */
    method DrainStep(node: Node, ack: nat, n: nat, dst: array?<byte>, ghost i: nat, ghost text: seq<byte>,
        ghost base: seq<byte>) returns (offset: nat)
      requires Inv(i, wi) && i <= wi < |cells| == |nodes| && node == nodes[i] && 0 < node.Len()
      requires ack < n <= |text| && Contents() == text[ack..]
      requires dst != null ==> n <= dst.Length == |base| && dst !in Repr && dst !in Shared
      requires CopiedTo(dst, text, base, ack)
      modifies node`r, this`cells, dst
      ensures Inv(i, wi) && 0 < offset && ack + offset <= n && Contents() == text[ack + offset..]
      ensures |cells| == |old(cells)| && Space(cells, wi) == old(Space(cells, wi)) && OnlyRead(old(cells), cells)
      ensures CopiedTo(dst, text, base, ack + offset)
    {
      hide Stream, Space, Ordered, Memory, Linked, Stored, Cell.Data, Copied;
      offset := node.Len();
      if ack + offset > n { offset := n - ack; }
      var s, err := ReadAt(node, offset, i);
      DropDrop(text, ack, offset);
      if dst != null { CopyNext(dst, ack, s, text, base); }
    }

    static lemma StartCopy(dst: array?<byte>, text: seq<byte>)
      ensures CopiedTo(dst, text, if dst == null then [] else dst[..], 0)
    {
      if dst != null { CopyStart(dst[..], text); }
    }

    /** The loop of Skip, Next and Read: takes n bytes from the chain, copying them when dst is given. */
    method Drain(n: nat, dst: array?<byte>)
      requires Valid() && n <= |Contents()|
      requires dst != null ==> n <= dst.Length && dst !in Repr && dst !in Shared
      modifies Repr, this`cells, this`rnode, this`ri, dst
      ensures Inv(ri, wi) && ri <= wi < |cells| == |nodes| && rnode == nodes[ri]
      ensures Contents() == old(Contents())[n..] && Space(cells, wi) == old(Space(cells, wi))
      ensures CopiedTo(dst, old(Contents()), if dst == null then [] else old(dst[..]), n)
      ensures OnlyRead(old(cells), cells)
    {
      hide Stream, Space, Ordered, Memory, Linked, Stored, Cell.Data, Copied, Valid, Sound, Inv, IsBlockSize, CopiedTo,
        OnlyRead;
      Opened();
      NodeOk(ri, wi, ri);
      OnlyReadAll(cells, cells, cells);
      var node, ack := rnode, 0;
      ghost var i, text := ri, Contents();
      ghost var base := if dst == null then [] else dst[..];
      StartCopy(dst, text);
      while ack < n && node != null
        invariant i <= wi < |cells| == |nodes| && node == nodes[i] && Inv(i, wi)
        invariant Space(cells, wi) == old(Space(cells, wi)) && OnlyRead(old(cells), cells)
        invariant ack <= n && Contents() == text[ack..]
        invariant CopiedTo(dst, text, base, ack)
        decreases |nodes| - i, n - ack
      {
        NodeOk(i, wi, i);
        if node.Len() == 0 {
          ReadFurther(i);
          node := node.next;
          i := i + 1;
        } else {
          ghost var cs := cells;
          var offset := DrainStep(node, ack, n, dst, i, text, base);
          OnlyReadAll(old(cells), cs, cells);
          ack := ack + offset;
        }
      }
      rnode := node;
      ri := i;
    }

    /** Drops n bytes that are there. */
    method SkipSome(n: nat)
      requires Valid() && n <= |Contents()|
      modifies this`rnode, this`ri, this`cells, this`rlen, Repr
      ensures Valid() && Contents() == old(Contents())[n..] && (n == 0 ==> ri == old(ri))
      ensures OnlyRead(old(cells), cells)
    {
      hide Stream, Space, Ordered, Memory, Linked, Stored, Cell.Data, Copied, Valid, Sound, Inv, IsBlockSize;
      Opened();
      NodeOk(ri, wi, ri);
      if rnode.Len() >= n {
        var s, err := ReadAt(rnode, n, ri);
      } else {
        Drain(n, null);
      }
      rlen := rlen - n;
      Closed();
    }

    /** Drops the next n bytes. */
    method Skip(n: int) returns (err: Error)
      requires Valid()
      modifies this`rnode, this`ri, this`cells, this`rlen, Repr
      ensures Valid() && (n == 0 || err != NoError ==> ri == old(ri))
      ensures err == if n < 0 then ErrInvalidParam else if |old(Contents())| < n then ErrNoEnoughData else NoError
      ensures Contents() == if err == NoError then old(Contents())[n..] else old(Contents())
      ensures OnlyRead(old(cells), cells)
    {
      hide Stream, Space, Ordered, Memory, Linked, Stored, Valid, Sound, Inv;
      Lengths();
      if n < 0 { return ErrInvalidParam; }
      if rlen < n { return ErrNoEnoughData; }
      SkipSome(n);
      err := NoError;
    }

    /** The first n bytes of the read node, taken and lent without copying. */
    method NextNode(n: nat) returns (s: Slice)
      requires Valid() && 0 < n <= rnode.Len() && n <= |Contents()|
      modifies this`loans, this`cells, this`rlen, rnode`r
      ensures cells == old(cells)[ri := ReadCell(old(cells)[ri], n)]
      ensures Valid() && old(loans) <= loans && Contents() == old(Contents())[n..] && Lent(s, old(Contents())[..n])
      ensures InPlace(s)
    {
      hide Stream, Space, Ordered, Memory, Linked, Stored, Cell.Data, Copied, Valid, Sound, Inv, IsBlockSize;
      Opened();
      NodeOk(ri, wi, ri);
      var err;
      s, err := ReadAt(rnode, n, ri);
      rlen := rlen - n;
      Closed();
      NodeOk(ri, wi, ri);
      LendFrom(rnode, ri, s.lo, s.Bytes());
    }

    /** The first n bytes, taken and lent as a copy. */
    method NextCopy(n: nat) returns (s: Slice)
      requires Valid() && 0 < n <= |Contents()|
      modifies this`loans, this`Shared, this`cells, this`rlen, this`rnode, this`ri, Repr
      ensures Valid() && old(loans) <= loans && Contents() == old(Contents())[n..] && Lent(s, old(Contents())[..n])
      ensures old(Shared) <= Shared && fresh(Shared - old(Shared))
      ensures s.arr != null && fresh(s.arr)
    {
      hide Stream, Space, Ordered, Memory, Linked, Stored, Cell.Data, Copied, Valid, Sound, Inv, IsBlockSize;
      Opened();
      var res := new byte[n];
      ghost var text, base := Contents(), res[..];
      Drain(n, res);
      rlen := rlen - n;
      Closed();
      CopyEnd(res[..], text, base, n);
      assert res[..n] == res[0..n] == res[..];
      LendFresh(res);
      s := Slice(res, 0, n);
    }

    /** Returns and removes the first bytes, of the read node or copied together. */
    method NextSome(n: nat) returns (s: Slice)
      requires Valid() && 0 < n <= |Contents()|
      modifies this`loans, this`Shared, this`cells, this`rlen, this`rnode, this`ri, Repr
      ensures Valid() && old(loans) <= loans && Contents() == old(Contents())[n..] && Lent(s, old(Contents())[..n])
      ensures old(Shared) <= Shared && fresh(Shared - old(Shared))
      ensures old(Blocks()) != [] && s.arr != null && (fresh(s.arr) <==> |old(Blocks())[0]| < n)
    {
      hide Stream, Space, Packets, Ordered, Memory, Linked, Stored, Valid, Sound, Inv, Lent;
      FirstUnread();
      FirstPacket();
      Opened();
      NodeOk(ri, wi, ri);
      if rnode.Len() >= n {
        s := NextNode(n);
      } else {
        s := NextCopy(n);
      }
    }

    /** The next n bytes, taken, and not copied when one node holds them all. */
    method Next(n: int) returns (s: Slice, err: Error)
      requires Valid()
      modifies this`loans, this`Shared, this`cells, this`rlen, this`rnode, this`ri, Repr
      ensures Valid() && old(loans) <= loans && old(Shared) <= Shared && fresh(Shared - old(Shared))
      ensures err == if n < 0 then ErrInvalidParam else if |old(Contents())| < n then ErrNoEnoughData else NoError
      ensures Contents() == if err == NoError then old(Contents())[n..] else old(Contents())
      ensures err == NoError ==> Lent(s, old(Contents())[..n])
      ensures n == 0 || err != NoError ==> ri == old(ri)
      ensures err == NoError && n > 0 ==>
        old(Blocks()) != [] && s.arr != null && (fresh(s.arr) <==> |old(Blocks())[0]| < n)
    {
      hide Stream, Space, Packets, Ordered, Memory, Linked, Stored, Valid, Sound, Inv;
      Lengths();
      s, err := Slice(null, 0, 0), NoError;
      if n < 0 { return s, ErrInvalidParam; }
      if n == 0 { return; }
      if rlen < n { return s, ErrNoEnoughData; }
      s := NextSome(n);
    }

    /** The first packet is what the read node holds. */
    lemma FirstPacket()
      requires Valid() && 0 < rnode.Len()
      ensures this !in Repr && rnode in Repr && rnode.Len() <= |Contents()| && |Blocks()| > 0 && ri < |cells|
      ensures Blocks()[0] == Contents()[..rnode.Len()]
      ensures Packets(cells[ri := ReadCell(cells[ri], rnode.Len())]) == Blocks()[1..]
    {
      hide Stream, Space, Packets, Memory, Linked, Stored, Cell.Data;
      NodeOk(ri, wi, ri);
      ReadPacket(cells, ri, wi);
    }

    /** The next packet, taken and lent without copying. */
    method ReadBlock() returns (s: Slice, err: Error)
      requires Valid()
      modifies this`loans, this`cells, this`rlen, this`rnode, this`ri, Repr
      ensures Valid() && old(loans) <= loans
      ensures err == if old(Blocks()) == [] then ErrNoEnoughData else NoError
      ensures err == NoError ==> Lent(s, old(Blocks())[0]) && Blocks() == old(Blocks())[1..]
      ensures err != NoError ==> Blocks() == old(Blocks())
      ensures err != NoError ==> ri == old(ri)
      ensures err == NoError ==> InPlace(s)
    {
      hide Stream, Space, Packets, Ordered, Memory, Linked, Stored, Cell.Data, Valid, Sound, Inv;
      s, err := Slice(null, 0, 0), NoError;
      Lengths();
      if rlen <= 0 { return s, ErrNoEnoughData; }
      FirstUnread();
      FirstPacket();
      s := NextNode(rnode.Len());
    }

    /** One block of PeekBlocks. */
    method PeekBlock(node: Node, rest: nat, ghost i: nat) returns (s: Slice)
      requires Valid() && i < |nodes| && node == nodes[i] && 0 < node.Len()
      requires rest == |Contents()| - |Stream(cells[..i])|
      modifies this`loans
      ensures Valid() && old(loans) <= loans && Lent(s, cells[i].Data())
      ensures s.hi - s.lo <= rest
      ensures InPlace(s)
    {
      hide Stream, Space, Ordered, Memory, Linked, Stored, Cell.Data;
      NodeOk(ri, wi, i);
      PieceAt(cells, i, node.Len());
      var l := node.Len();
      if l > rest { l := rest; }
      s := Slice(node.block, node.r, node.r + l);
      LendFrom(node, i, node.r, s.Bytes());
    }

    /** The slice is of memory the buffer has, not of a copy. */
    ghost predicate InPlace(s: Slice)
      reads this`Repr, this`Shared
    {
      s.arr != null && (s.arr in Repr || s.arr in Shared)
    }

    ghost predicate LentAll(bs: seq<Slice>, ps: seq<seq<byte>>)
      reads this`loans, set s | s in bs && s.arr != null :: s.arr
    {
      |bs| == |ps| && forall j | 0 <= j < |bs| :: Lent(bs[j], ps[j])
    }

    /** Lends the packet of node i after those before it. */
    method LendNext(node: Node, rest: nat, bs: seq<Slice>, ghost i: nat, ghost ps: seq<seq<byte>>) returns (s: Slice)
      requires Valid() && i < |nodes| && node == nodes[i] && 0 < node.Len() && LentAll(bs, ps)
      requires i < |cells| && rest == |Contents()| - |Stream(cells[..i])|
      modifies this`loans
      ensures Valid() && old(loans) <= loans && LentAll(bs + [s], ps + [cells[i].Data()])
      ensures s.hi - s.lo == |cells[i].Data()| <= rest
      ensures InPlace(s)
    {
      hide Stream, Space, Packets, Ordered, Memory, Linked, Stored, Cell.Data, Valid, Sound, Inv, Node.Data;
      s := PeekBlock(node, rest, i);
    }

    /** Lends the packet of node i, if it has one, after those before it. */
    method PeekNext(node: Node, rest: nat, bs: seq<Slice>, ghost i: nat) returns (rest': nat, bs': seq<Slice>)
      requires Valid() && i < |nodes| == |cells| && node == nodes[i] && rest == |Contents()| - |Stream(cells[..i])|
      requires LentAll(bs, Packets(cells[..i]))
      modifies this`loans
      ensures Valid() && old(loans) <= loans && |bs| <= |bs'| <= |bs| + 1
      ensures rest' == |Contents()| - |Stream(cells[..i + 1])| && LentAll(bs', Packets(cells[..i + 1]))
      ensures (forall x | x in bs :: InPlace(x)) ==> forall x | x in bs' :: InPlace(x)
    {
      hide Stream, Space, Packets, Ordered, Memory, Linked, Stored, Cell.Data, Valid, Sound, Inv, Lent, LentAll,
        Node.Data;
      Opened();
      NodeOk(ri, wi, i);
      PieceAt(cells, i, 0);
      PacketsTo(cells, i);
      rest', bs' := rest, bs;
      if node.Len() != 0 {
        var s := LendNext(node, rest, bs, i, Packets(cells[..i]));
        rest' := rest - (s.hi - s.lo);
        bs' := bs + [s];
      }
    }

    /** Lends as many of the first packets as there are places for, without taking them. */
    method PeekBlocks(places: nat) returns (bs: seq<Slice>)
      requires Valid()
      modifies this`loans
      ensures Valid() && old(loans) <= loans
      ensures |bs| == if places < |Blocks()| then places else |Blocks()|
      ensures forall j | 0 <= j < |bs| :: Lent(bs[j], Blocks()[j])
      ensures forall x | x in bs :: InPlace(x)
    {
      hide Stream, Space, Packets, Ordered, Memory, Linked, Stored, Cell.Data, Sound, Inv;
      bs := [];
      Cursors();
      NodeIn(ri);
      var rest: nat, node := rlen, rnode;
      ghost var i := ri;
      while |bs| < places && rest > 0
        invariant Valid() && old(loans) <= loans && i <= |nodes| && node == (if i < |nodes| then nodes[i] else null)
        invariant |bs| <= places && rest == |Contents()| - |Stream(cells[..i])| && LentAll(bs, Packets(cells[..i]))
        invariant forall x | x in bs :: InPlace(x)
        decreases |nodes| - i
      {
        if i == |nodes| {
          StreamTo(cells, i);
          assert false;
        }
        rest, bs := PeekNext(node, rest, bs, i);
        NodeIn(i);
        i := i + 1;
        node := node.next;
      }
      PacketsTo(cells, i);
    }

    /**
     Drops the next n packets. Asked for more packets than there are, it has already moved every read offset
     when it finds out, and leaves rlen at its old value: the buffer is then no longer sound.
     */
    method SkipBlocks(n: int) returns (err: Error)
      requires Valid()
      modifies this`rnode, this`ri, this`cells, this`rlen, Repr
      ensures err == if n < 0 then ErrInvalidParam
                     else if old(Blocks()) == [] || |old(Blocks())| < n then ErrNoEnoughData else NoError
      ensures Valid() <==> n <= |old(Blocks())| || old(Blocks()) == []
      ensures err == NoError ==> Blocks() == old(Blocks())[n..]
      ensures err != NoError && Valid() ==> Blocks() == old(Blocks())
      ensures !Valid() ==> Blocks() == [] && rlen == |old(Contents())|
    {
      hide Stream, Packets, Space, Ordered, Memory, Linked, Stored, Cell.Data;
      NodeOk(ri, wi, ri);
      NoPackets(cells);
      if n < 0 { return ErrInvalidParam; }
      if rlen <= 0 { return ErrNoEnoughData; }
      var ok, ack := SkipLoop(n);
      NoPackets(cells);
      if !ok { return ErrNoEnoughData; }
      rlen := rlen - ack;
      err := NoError;
    }

    /** Takes the packet of node i. */
    method SkipPacket(node: Node, ghost i: nat) returns (l: nat)
      requires Inv(i, wi) && i <= wi < |cells| == |nodes| && node == nodes[i] && 0 < node.Len()
      modifies node`r, this`cells
      ensures Inv(i, wi) && |cells| == |old(cells)|
      ensures forall j | 0 <= j < |cells| && j != i :: cells[j] == old(cells)[j]
      ensures old(Blocks()) != [] && Blocks() == old(Blocks())[1..] && |Contents()| == |old(Contents())| - l
      ensures Space(cells, wi) == old(Space(cells, wi))
    {
      hide Stream, Packets, Space, Ordered, Memory, Linked, Stored, Cell.Data, Inv;
      NodeOk(i, wi, i);
      PacketAt(i);
      l := node.Len();
      var s, err := ReadAt(node, l, i);
    }

    /** The loop of SkipBlocks; it moves the read node only if it found n packets. */
    method SkipLoop(n: nat) returns (ok: bool, ack: nat)
      requires Valid()
      modifies this`rnode, this`ri, this`cells, Repr
      ensures ok <==> n <= |old(Blocks())|
      ensures ok ==> Inv(ri, wi) && ri <= wi < |cells| == |nodes| && rnode == nodes[ri]
      ensures ok ==> Blocks() == old(Blocks())[n..] && |Contents()| == |old(Contents())| - ack
      ensures ok ==> Space(cells, wi) == old(Space(cells, wi))
      ensures !ok ==> Blocks() == []
    {
      hide Stream, Packets, Space, Ordered, Memory, Linked, Stored, Cell.Data, Valid, Sound, Inv, IsBlockSize;
      Opened();
      NodeOk(ri, wi, ri);
      var node, ackn := rnode, 0;
      ack := 0;
      ghost var i, k, ps := ri, ri, Blocks();
      BeforeRead(ri, wi);
      while ackn < n && node != null
        invariant i <= |nodes| && node == (if i < |nodes| then nodes[i] else null)
        invariant k == (if i < wi then i else wi) && wi < |cells| == |nodes| && Inv(k, wi)
        invariant forall j | 0 <= j < i :: cells[j].r == cells[j].w
        invariant ackn <= n && ackn <= |ps| && Blocks() == ps[ackn..]
        invariant |Contents()| == |old(Contents())| - ack && Space(cells, wi) == old(Space(cells, wi))
        invariant i <= wi || ackn < n
        decreases |nodes| - i, n - ackn
      {
        NodeOk(k, wi, i);
        if node.Len() == 0 {
          if i < wi { SkipFurther(i); k := k + 1; }
          node := node.next;
          i := i + 1;
        } else {
          AfterWrite(k, wi, i);
          var l := SkipPacket(node, i);
          ackn := ackn + 1;
          ack := ack + l;
        }
      }
      if ackn != n {
        AllRead(cells);
        return false, ack;
      }
      ok := true;
      rnode := node;
      ri := i;
    }

    lemma SkipFurther(k: nat)
      requires Inv(k, wi) && k < wi && cells[k].r == cells[k].w
      ensures Inv(k + 1, wi)
    {
      hide Memory, Linked, Stored;
      SkipEmpty(cells, k, wi);
    }

    lemma PacketAt(k: nat)
      requires Inv(k, wi) && k < |cells| && cells[k].r < cells[k].w
      ensures cells[k].w - cells[k].r <= |Contents()| && |Blocks()| > 0
      ensures Packets(cells[k := ReadCell(cells[k], cells[k].w - cells[k].r)]) == Blocks()[1..]
    {
      hide Memory, Linked, Stored, Stream, Packets;
      ReadPacket(cells, k, wi);
    }

    lemma BeforeRead(k: nat, m: nat)
      requires Inv(k, m)
      ensures forall j | 0 <= j < k <= |cells| :: cells[j].r == cells[j].w
    {}

    lemma AfterWrite(k: nat, m: nat, i: nat)
      requires Inv(k, m) && i < |cells|
      ensures m < i ==> cells[i].w == 0 && cells[i].recycle
    {}

    // ---- releasing ----

    twostate lemma HeadUnlinked()
      requires old(Linked()) && |old(nodes)| > 1
      requires nodes == old(nodes)[1..] && cells == old(cells)[1..]
      requires head == old(nodes)[1] && tail == old(tail) && Repr == old(Repr)
      requires forall o | o in old(nodes) && o != old(head) :: unchanged(o)
      ensures Linked()
    {
      forall i | 0 <= i < |nodes| ensures nodes[i] == old(nodes)[i + 1] && unchanged(nodes[i]) {
        assert nodes[i] in old(nodes);
      }
    }

    twostate lemma HeadForgotten()
      requires old(Stored()) && |old(cells)| > 0 && cells == old(cells)[1..]
      requires Repr == old(Repr) && Shared == old(Shared) && loans == {}
      requires forall a: array<byte> | a in Repr || a in Shared :: unchanged(a)
      ensures Stored()
    {}

    /** Without the head node, which has been read out, the buffer is as sound as before. */
    twostate lemma HeadGone()
      requires old(Valid()) && old(ri) > 0 && old(loans) == loans == {}
      requires nodes == old(nodes)[1..] && cells == old(cells)[1..] && ri == old(ri) - 1 && wi == old(wi) - 1
      requires head == old(nodes)[1] && tail == old(tail) && Repr == old(Repr) && Shared == old(Shared)
      requires Freed == old(Freed) + OwnBlock(old(cells)[0])
      requires rnode == old(rnode) && wnode == old(wnode) && rlen == old(rlen) && wlen == old(wlen)
      requires nodeBlockSize == old(nodeBlockSize) && filled == old(filled) && linked == old(linked)
      requires forall o | o in old(nodes) && o != old(head) :: unchanged(o)
      requires forall a: array<byte> | a in Repr || a in Shared :: unchanged(a)
      ensures Valid() && Contents() == old(Contents()) && Blocks() == old(Blocks())
    {
      hide Stream, Packets, Space, Ordered, Memory, Linked, Stored, Cell.Data;
      DropHead(old(cells), old(ri), old(wi));
      MemoryDrop(old(cells), Repr, Shared, old(Freed));
      HeadUnlinked();
      HeadForgotten();
    }

    /** Of nodes ns the first k have been freed, and the blocks they owned. */
    static ghost predicate FreedTo(ns: seq<Node>, cs: seq<Cell>, freed: multiset<array<byte>>, k: int,
        ns': seq<Node>, cs': seq<Cell>, freed': multiset<array<byte>>)
    {
      0 <= k <= |ns| == |cs| && ns' == ns[k..] && cs' == cs[k..] && freed' == freed + OwnBlocks(cs[..k])
    }

    static lemma FreedNone(ns: seq<Node>, cs: seq<Cell>, freed: multiset<array<byte>>)
      requires |ns| == |cs|
      ensures FreedTo(ns, cs, freed, 0, ns, cs, freed)
    {
      NoBlocks(cs[..0]);
    }

    static lemma FreedNext(ns: seq<Node>, cs: seq<Cell>, freed: multiset<array<byte>>, k: int,
        ns': seq<Node>, cs': seq<Cell>, freed': multiset<array<byte>>)
      requires FreedTo(ns, cs, freed, k, ns', cs', freed') && ns' != []
      ensures cs' != [] && FreedTo(ns, cs, freed, k + 1, ns'[1..], cs'[1..], freed' + OwnBlock(cs'[0]))
    {
      OwnBlocksTo(cs, k);
    }

    static lemma FreedAll(ns: seq<Node>, cs: seq<Cell>, freed: multiset<array<byte>>, k: int,
        ns': seq<Node>, cs': seq<Cell>, freed': multiset<array<byte>>)
      requires FreedTo(ns, cs, freed, k, ns', cs', freed')
      ensures 0 <= k <= |ns| == |cs| && ns' == ns[k..] && cs' == cs[k..] && freed' == freed + OwnBlocks(cs[..k])
    {}

    /** The loop body of Release: frees the head node. */
    method FreeHead() returns (cap: nat)
      requires Valid() && ri > 0 && loans == {}
      modifies this`head, this`nodes, this`cells, this`ri, this`wi, this`Freed, head
      ensures Valid() && Contents() == old(Contents()) && Blocks() == old(Blocks())
      ensures ri == old(ri) - 1 && wi == old(wi) - 1 && cells == old(cells)[1..] && cap == |old(cells)[0].bytes|
      ensures nodes == old(nodes)[1..] && Freed == old(Freed) + OwnBlock(old(cells)[0])
    {
      hide Stream, Packets, Space, Ordered, Memory, Linked, Stored, Cell.Data, Valid, Inv;
      HeadNode();
      var h := head;
      cap := h.Cap();
      head := head.next;
      ghost var freed := h.Reset();
      ForgetHead(freed);
      HeadGone();
    }

    ghost method ForgetHead(freed: multiset<array<byte>>)
      requires |nodes| == |cells| > 1 && 0 < ri <= wi
      modifies this`nodes, this`cells, this`ri, this`wi, this`Freed
      ensures nodes == old(nodes)[1..] && cells == old(cells)[1..] && ri == old(ri) - 1 && wi == old(wi) - 1
      ensures Freed == old(Freed) + freed
    {
      nodes, cells, ri, wi, Freed := nodes[1..], cells[1..], ri - 1, wi - 1, Freed + freed;
    }

    lemma HeadNode()
      requires Valid() && ri > 0
      ensures |nodes| == |cells| > 1 && ri <= wi < |nodes| && head == nodes[0] && head.Ok() && head.next == nodes[1]
      ensures head.block == cells[0].block && head.Cap() == |cells[0].bytes| && head.recycle == cells[0].recycle
      ensures this !in Repr
    {
      NodeOk(ri, wi, 0);
    }

    lemma FirstNode(k: nat, m: nat)
      requires Inv(k, m)
      ensures head == nodes[0] && tail == nodes[|nodes| - 1]
      ensures forall i | 0 < i < |nodes| :: nodes[i] != nodes[0]
      ensures forall i | 0 <= i < |nodes| - 1 :: nodes[i] != nodes[|nodes| - 1]
    {}

    /** Doubles the block size until it covers the released length, within the largest size. */
    method GrowBlockSize(readLength: nat)
      requires Valid()
      modifies this`nodeBlockSize
      ensures Valid() && nodeBlockSize >= old(nodeBlockSize)
      ensures readLength <= MAX_NODE_BLOCK_SIZE ==> readLength <= nodeBlockSize
      ensures nodeBlockSize > old(nodeBlockSize) ==> nodeBlockSize < 2 * readLength
    {
      hide Stream, Space, Ordered, Memory, Linked, Stored;
      NodeOk(ri, wi, ri);
      while nodeBlockSize < readLength && nodeBlockSize * 2 <= MAX_NODE_BLOCK_SIZE
        invariant IsBlockSize(nodeBlockSize) && nodeBlockSize >= old(nodeBlockSize)
        invariant nodeBlockSize > old(nodeBlockSize) ==> nodeBlockSize < 2 * readLength
        decreases readLength - nodeBlockSize
      {
        nodeBlockSize := nodeBlockSize * 2;
      }
    }

    ghost method EndLoans()
      requires Valid()
      modifies this`loans
      ensures Valid() && loans == {}
    {
      hide Stream, Space, Ordered, Memory, Linked;
      NodeOk(ri, wi, ri);
      MemoryNoLoans(cells, loans, Repr, Shared, Freed);
      loans := {};
    }

    /** The loop of Release: frees the nodes before the read node and adds up their memory. */
    method FreeRead() returns (readLength: nat)
      requires Valid() && loans == {}
      modifies this`head, this`nodes, this`cells, this`ri, this`wi, this`Freed, Repr
      ensures Valid() && Contents() == old(Contents()) && Blocks() == old(Blocks())
      ensures readLength == CapSum(old(cells)[..old(ri) + 1]) && this !in Repr && wi - ri == old(wi) - old(ri)
      ensures ri == 0 && nodes == old(nodes)[old(ri)..] && cells == old(cells)[old(ri)..] && head == rnode
      ensures Freed == old(Freed) + OwnBlocks(old(cells)[..old(ri)])
    {
      hide Stream, Packets, Space, Ordered, Memory, Linked, Stored, CapSum, Valid, Inv, FreedTo, OwnBlocks, OwnBlock;
      ReadNode();
      readLength := rnode.Cap();
      CapSumTo(cells, ri);
      FreedNone(nodes, cells, Freed);
      while head != rnode
        invariant Valid() && Contents() == old(Contents()) && Blocks() == old(Blocks())
        invariant ri <= |cells| && readLength + CapSum(cells[..ri]) == CapSum(old(cells)[..old(ri) + 1])
        invariant wi - ri == old(wi) - old(ri)
        invariant FreedTo(old(nodes), old(cells), old(Freed), old(ri) - ri, nodes, cells, Freed)
        decreases ri
      {
        ReadNode();
        CapSumHead(cells, ri);
        FreedNext(old(nodes), old(cells), old(Freed), old(ri) - ri, nodes, cells, Freed);
        var cap := FreeHead();
        readLength := readLength + cap;
      }
      ReadNode();
      CapSumTo(cells, 0);
      FreedAll(old(nodes), old(cells), old(Freed), old(ri), nodes, cells, Freed);
    }

    lemma ReadNode()
      requires Valid()
      ensures ri < |cells| == |nodes| && rnode == nodes[ri] && rnode.Cap() == |cells[ri].bytes| && this !in Repr
      ensures head == rnode <==> ri == 0
      ensures head in Repr
    {
      NodeOk(ri, wi, ri);
    }

    /** Frees every node of the chain. */
    method FreeAll()
      requires Valid()
      modifies this`Freed, Repr
      ensures Freed == old(Freed) + OwnBlocks(cells)
    {
      hide Stream, Packets, Space, Ordered, Memory, Linked, Stored, Cell.Data, OwnBlocks, Sound, Inv, Valid;
      NodesNow();
      var node := head;
      ghost var i := 0;
      NoBlocks(cells[..0]);
      while node != null
        invariant i <= |nodes| == |cells| && node == (if i < |nodes| then nodes[i] else null)
        invariant forall j | i <= j < |nodes| :: unchanged(nodes[j])
        invariant Freed == old(Freed) + OwnBlocks(cells[..i])
        decreases |nodes| - i
      {
        OldNode(i);
        var next := node.next;
        ghost var freed := node.Reset();
        Freed := Freed + freed;
        node := next;
        i := i + 1;
      }
      assert cells[..i] == cells;
    }

    lemma NodesNow()
      requires Valid()
      ensures this !in Repr && |nodes| == |cells| > 0 && head == nodes[0]
      ensures forall i, j | 0 <= i < j < |nodes| :: nodes[i] != nodes[j]
    {
      NodeOk(ri, wi, 0);
      FirstNode(ri, wi);
      Distinct(ri, wi);
    }

    twostate lemma OldNode(i: nat)
      requires old(Valid()) && i < |old(nodes)| && unchanged(old(nodes)[i]) && cells == old(cells) &&
        nodes == old(nodes)
      ensures nodes[i].Ok() && nodes[i] in old(Repr) && nodes[i].recycle == cells[i].recycle &&
        nodes[i].block == cells[i].block
      ensures nodes[i].next == (if i + 1 < |nodes| then nodes[i + 1] else null)
      ensures OwnBlocks(cells[..i + 1]) == OwnBlocks(cells[..i]) + OwnBlock(cells[i])
    {
      hide OwnBlocks, Memory, Stored, Stream, Room;
      OwnBlocksTo(cells, i);
    }

    lemma Distinct(k: nat, m: nat)
      requires Inv(k, m)
      ensures forall i, j | 0 <= i < j < |nodes| :: nodes[i] != nodes[j]
    {}

    /** Makes the chain one new node without memory. */
    method Dump()
      requires this !in Repr && rlen == 0
      requires forall a | a in Shared :: a !in Repr
      requires Once(Freed, Repr)
      modifies this
      ensures Valid() && Contents() == [] && Blocks() == [] && loans == {}
      ensures nodeBlockSize == BLOCK_SIZE && auto == old(auto) && Freed == old(Freed) && Shared == old(Shared)
      ensures old(Repr) <= Repr && fresh(Repr - old(Repr))
      ensures linked == old(linked) && filled == old(filled) && ri == 0 == wi && wnode != null && wnode.IsFull()
      ensures cells == [Cell(null, [], 0, 0, false)]
    {
      hide Stream, Packets, Space, Ordered, Memory, Linked, Stored, Valid, Inv, Once;
      var dump := new Node();
      OnceMore(Freed, Repr, {dump});
      PointTo(dump);
      wlen, nodeBlockSize := 0, BLOCK_SIZE;
      DumpGhost(dump);
      OneNode(dump);
    }

    method PointTo(n: Node)
      modifies this`head, this`rnode, this`wnode, this`tail
      ensures head == rnode == wnode == tail == n
    {
      head, rnode, wnode, tail := n, n, n, n;
    }

    ghost method DumpGhost(dump: Node)
      modifies this`nodes, this`cells, this`ri, this`wi, this`loans, this`Repr
      ensures nodes == [dump] && cells == [DumpCell()] && ri == wi == 0 && loans == {} && Repr == old(Repr) + {dump}
    {
      nodes, cells, ri, wi, loans, Repr := [dump], [DumpCell()], 0, 0, {}, Repr + {dump};
    }

    lemma OneNode(dump: Node)
      requires head == rnode == wnode == tail == dump && dump in Repr && this !in Repr
      requires dump.next == null && dump.block == null && dump.r == dump.w == 0 && !dump.recycle
      requires nodes == [dump] && cells == [DumpCell()] && ri == wi == 0 && loans == {}
      requires rlen == 0 && wlen == 0 && nodeBlockSize == BLOCK_SIZE
      requires forall a | a in Shared :: a !in Repr
      requires Once(Freed, Repr)
      ensures Valid() && Contents() == [] && Blocks() == []
    {
      hide Stream, Packets, Space, Ordered, Memory;
      Fresh(Repr, Shared, Freed);
    }

    /** What freeing everything needs to know. */
    lemma Owned()
      requires Valid()
      ensures this !in Repr
      ensures forall a | a in Shared :: a !in Repr
      ensures Once(Freed + OwnBlocks(cells), Repr)
    {
      MemoryOwn(cells, loans, Repr, Shared, Freed);
    }

    /** Returns an empty buffer to its first state: all memory freed, each block once, one node without memory. */
    method CleanUp()
      requires Valid() && rlen == 0
      modifies this, Repr
      ensures Valid() && Contents() == [] && Blocks() == [] && loans == {} && auto == old(auto)
      ensures nodeBlockSize == BLOCK_SIZE && Freed == old(Freed) + OwnBlocks(old(cells))
      ensures old(Repr) <= Repr && fresh(Repr - old(Repr)) && Shared == old(Shared)
      ensures linked == old(linked) && filled == old(filled)
      ensures ri == 0 == wi
    {
      hide Stream, Packets, Space, Ordered, Memory, Linked, Stored, Valid, Inv, OwnBlocks, Once;
      Owned();
      FreeAll();
      Dump();
    }

    /** Gives all memory back, each block once; the buffer has to be initialised again before use. */
    method Free()
      requires Valid()
      modifies this, Repr
      ensures head == rnode == wnode == tail == null && rlen == 0 && wlen == 0
      ensures Freed == old(Freed) + OwnBlocks(old(cells)) && Once(Freed, old(Repr)) && nodes == []
    {
      hide Stream, Packets, Space, Ordered, Memory, Linked, Stored, Valid, Inv, OwnBlocks, Once;
      Owned();
      FreeAll();
      head, rnode, wnode, tail := null, null, null, null;
      rlen, wlen := 0, 0;
      NoNodes();
    }

    ghost method NoNodes()
      modifies this`nodes, this`cells, this`ri, this`wi, this`loans
      ensures nodes == []
    {
      nodes, cells, ri, wi, loans := [], [], 0, 0, {};
    }

    twostate lemma WriteNodeRewound()
      requires old(Valid()) && old(Contents()) == []
      requires nodes == old(nodes) && ri == old(ri) && wi == old(wi) < |nodes|
      requires cells == old(cells)[wi := Rewound(old(cells)[wi])]
      requires head == old(head) && tail == old(tail) && Repr == old(Repr) && Shared == old(Shared) &&
        Freed == old(Freed)
      requires rnode == old(rnode) && wnode == old(wnode) && rlen == old(rlen) && wlen == old(wlen) + old(cells)[wi].w
      requires nodeBlockSize == old(nodeBlockSize) && filled == old(filled) && linked == old(linked) && loans == {}
      requires forall o | o in nodes && o != nodes[wi] :: unchanged(o)
      requires old(wnode.recycle) == old(cells)[wi].recycle && old(wnode.block) == old(cells)[wi].block
      requires wnode.next == old(wnode.next) && wnode.r == wnode.w == 0 && wnode.recycle == old(wnode.recycle)
      requires wnode.block == if wnode.recycle then old(wnode.block) else null
      requires forall a: array<byte> | a in Repr || a in Shared :: unchanged(a)
      ensures Valid() && Contents() == []
    {
      hide Stream, Packets, Space, Ordered, Memory, Linked, Cell.Data;
      RewindStep(old(cells), ri, wi);
      MemoryNoLoans(old(cells), old(loans), Repr, Shared, Freed);
      MemoryRewind(old(cells), wi, Repr, Shared, Freed);
      NodeChanged(wi);
    }

    /** Lets an empty buffer's write node start again at offset zero, or cleans the buffer up. */
    method OptimizeMemory(cleanUp: bool)
      requires Valid()
      modifies this, Repr
      ensures Valid() && Contents() == old(Contents()) && Blocks() == old(Blocks())
      ensures loans == (if old(Contents()) == [] then {} else old(loans)) && auto == old(auto)
      ensures nodeBlockSize == if cleanUp && old(Contents()) == [] then BLOCK_SIZE else old(nodeBlockSize)
      ensures old(Repr) <= Repr && fresh(Repr - old(Repr)) && Shared == old(Shared)
      ensures linked == old(linked) && filled == old(filled)
      ensures wi - ri == if cleanUp && old(Contents()) == [] then 0 else old(wi) - old(ri)
      ensures old(wi) < |old(cells)|
      ensures old(Contents()) == [] && !cleanUp ==> cells == old(cells)[old(wi) := Rewound(old(cells)[old(wi)])]
      ensures old(Contents()) != [] ==> cells == old(cells)
      ensures old(Contents()) != [] || !cleanUp ==>
        ri == old(ri) && wi == old(wi) && nodes == old(nodes) && Freed == old(Freed)
      ensures old(Contents()) == [] && cleanUp ==> Freed == old(Freed) + OwnBlocks(old(cells))
    {
      hide Stream, Packets, Space, Ordered, Memory, Linked, Stored, Valid, Inv;
      Lengths();
      WriteNode();
      if rlen != 0 { return; }
      if cleanUp {
        CleanUp();
        return;
      }
      Rewind();
    }

    lemma Lengths()
      requires Valid()
      ensures rlen == |Contents()|
      ensures Contents() == [] <==> Blocks() == []
      ensures this !in Repr && wnode in Repr
    {
      NodeOk(ri, wi, wi);
      NoPackets(cells);
    }

    method Rewind()
      requires Valid() && rlen == 0
      modifies this`wlen, this`loans, this`cells, wnode
      ensures Valid() && Contents() == [] && Blocks() == [] && loans == {}
      ensures wi < |old(cells)| && cells == old(cells)[wi := Rewound(old(cells)[wi])]
    {
      hide Stream, Packets, Space, Ordered, Memory, Linked, Stored, Valid, Inv;
      WriteNode();
      Lengths();
      wlen := wlen + wnode.w;
      wnode.r, wnode.w := 0, 0;
      if !wnode.recycle { wnode.block := null; }
      RewindGhost();
      WriteNodeRewound();
      Lengths();
    }

    ghost method RewindGhost()
      requires wi < |cells|
      modifies this`cells, this`loans
      ensures cells == old(cells)[wi := Rewound(old(cells)[wi])] && loans == {}
    {
      cells, loans := cells[wi := Rewound(cells[wi])], {};
    }

    lemma WriteNode()
      requires Valid()
      ensures ri <= wi < |nodes| == |cells| && wnode == nodes[wi] && wnode in nodes && wnode.Ok() && wnode in Repr
      ensures wnode.block == cells[wi].block && wnode.r == cells[wi].r
      ensures wnode.w == cells[wi].w && wnode.recycle == cells[wi].recycle
      ensures wnode.next == (if wi + 1 < |nodes| then nodes[wi + 1] else null)
      ensures rnode == nodes[ri] && head == nodes[0] && tail == nodes[|nodes| - 1]
    {
      NodeOk(ri, wi, wi);
    }

    lemma SmallestBlock()
      requires Valid()
      ensures nodeBlockSize >= BLOCK_SIZE
    {}

    /** The chain after its write node was rewound, if nothing is unread. */
    static ghost function Optimized(cs: seq<Cell>, m: nat, empty: bool): seq<Cell>
      requires m < |cs|
    {
      if empty then cs[m := Rewound(cs[m])] else cs
    }

    /**
     Frees the nodes before the read node and the blocks they own, raises the block size to the least one that covers
     what was released, rewinds or cleans up an empty buffer, and ends all loans.
     */
    method Release(cleanUp: bool)
      requires Valid()
      modifies this, Repr
      ensures Valid() && Contents() == old(Contents()) && Blocks() == old(Blocks()) && loans == {}
      ensures old(Repr) <= Repr && fresh(Repr - old(Repr)) && Shared == old(Shared)
      ensures linked == old(linked) && filled == old(filled)
      ensures var released := CapSum(old(cells)[..old(ri) + 1]);
        auto && released <= MAX_NODE_BLOCK_SIZE && !(cleanUp && Contents() == []) ==> released <= nodeBlockSize
      ensures wi - ri == if cleanUp && old(Contents()) == [] then 0 else old(wi) - old(ri)
      ensures old(ri) <= old(wi) < |old(cells)|
      ensures var cleaned := cleanUp && old(Contents()) == [];
        && (!cleaned ==> ri == 0 && nodes == old(nodes)[old(ri)..])
        && (!cleaned ==> cells == Optimized(old(cells)[old(ri)..], old(wi) - old(ri), old(Contents()) == []))
        && Freed == old(Freed) + OwnBlocks(old(cells)[..old(ri)])
                    + (if cleaned then OwnBlocks(old(cells)[old(ri)..]) else multiset{})
      ensures nodeBlockSize > old(nodeBlockSize) ==>
        var released := CapSum(old(cells)[..old(ri) + 1]);
        auto && released <= MAX_NODE_BLOCK_SIZE && nodeBlockSize < 2 * released
      ensures if cleanUp && old(Contents()) == [] then nodeBlockSize == BLOCK_SIZE
              else nodeBlockSize >= old(nodeBlockSize)
      ensures auto == old(auto)
    {
      hide Stream, Packets, Space, Ordered, Memory, Linked, Stored, Valid, Inv, CapSum, OwnBlocks, Rewound, IsBlockSize;
      Lengths();
      WriteNode();
      SmallestBlock();
      ReleaseRead();
      OptimizeMemory(cleanUp);
    }

    /** The part of Release that holds the read lock. */
    method ReleaseRead()
      requires Valid()
      modifies this`loans, this`head, this`nodes, this`cells, this`ri, this`wi, this`Freed, this`nodeBlockSize, Repr
      ensures Valid() && Contents() == old(Contents()) && Blocks() == old(Blocks()) && loans == {} && this !in Repr
      ensures old(ri) <= old(wi) < |old(cells)| && ri == 0 && wi == old(wi) - old(ri)
      ensures nodes == old(nodes)[old(ri)..] && cells == old(cells)[old(ri)..]
      ensures Freed == old(Freed) + OwnBlocks(old(cells)[..old(ri)]) && nodeBlockSize >= old(nodeBlockSize)
      ensures var released := CapSum(old(cells)[..old(ri) + 1]);
        && (auto && released <= MAX_NODE_BLOCK_SIZE ==> released <= nodeBlockSize)
        && (nodeBlockSize > old(nodeBlockSize) ==>
              auto && released <= MAX_NODE_BLOCK_SIZE && nodeBlockSize < 2 * released)
    {
      hide Stream, Packets, Space, Ordered, Memory, Linked, Stored, Valid, Inv, CapSum, OwnBlocks, Rewound, IsBlockSize;
      Lengths();
      WriteNode();
      EndLoans();
      var readLength := FreeRead();
      if auto && readLength <= MAX_NODE_BLOCK_SIZE {
        GrowBlockSize(readLength);
      }
    }

    /** Copies the next bytes into p, and releases what has been read. */
    method Read(p: array<byte>, cleanUp: bool) returns (n: nat)
      requires Valid() && p !in Repr && p !in Shared
      modifies this, Repr, p
      ensures Valid() && n == (if p.Length < |old(Contents())| then p.Length else |old(Contents())|)
      ensures Contents() == old(Contents())[n..] && (p.Length > 0 ==> loans == {})
      ensures p[..n] == old(Contents())[..n] && p[n..] == old(p[..])[n..]
      ensures old(Repr) <= Repr && fresh(Repr - old(Repr)) && Shared == old(Shared) && filled == old(filled)
      ensures old(Contents()) == [] ==> wi - ri == if cleanUp && p.Length > 0 then 0 else old(wi) - old(ri)
    {
      hide Stream, Packets, Space, Ordered, Memory, Linked, Stored, Valid, Sound, Inv, Copied, CapSum;
      n := p.Length;
      Lengths();
      if n == 0 { return; }
      if rlen < n { n := rlen; }
      ReadInto(p, n);
      Release(cleanUp);
    }

    /** Copies bytes of the read node. */
    method ReadFromNode(p: array<byte>, n: nat)
      requires Inv(ri, wi) && ri <= wi < |cells| == |nodes| && rnode == nodes[ri] && n <= rnode.Len()
      requires p !in Repr && p !in Shared && n <= p.Length && n <= |Contents()|
      modifies this`cells, rnode`r, p
      ensures Inv(ri, wi) && |cells| == |old(cells)| && Contents() == old(Contents())[n..]
      ensures Space(cells, wi) == old(Space(cells, wi))
      ensures p[..n] == old(Contents())[..n] && p[n..] == old(p[..])[n..]
    {
      hide Stream, Space, Ordered, Memory, Linked, Stored, Cell.Data, Inv;
      NodeOk(ri, wi, ri);
      var s, err := ReadAt(rnode, n, ri);
      CopyTo(p, 0, s);
    }

    /** The part of Read that holds the read lock. */
    method ReadInto(p: array<byte>, n: nat)
      requires Valid() && p !in Repr && p !in Shared && n <= p.Length && n <= |Contents()|
      modifies this`rnode, this`ri, this`cells, this`rlen, Repr, p
      ensures Valid() && this !in Repr && Contents() == old(Contents())[n..]
      ensures p[..n] == old(Contents())[..n] && p[n..] == old(p[..])[n..]
      ensures n == 0 ==> ri == old(ri)
    {
      hide Stream, Space, Ordered, Memory, Linked, Stored, Cell.Data, Copied, Valid, Sound, Inv, IsBlockSize;
      Opened();
      NodeOk(ri, wi, ri);
      if rnode.Len() >= n {
        ReadFromNode(p, n);
      } else {
        ghost var text, base := Contents(), p[..];
        Drain(n, p);
        CopyEnd(p[..], text, base, n);
      }
      rlen := rlen - n;
      Closed();
    }

    // ---- writing ----

    twostate lemma TailAdded(new n: Node)
      requires old(Linked())
      requires nodes == old(nodes) + [n] && |cells| == |nodes| && cells[..|old(cells)|] == old(cells)
      requires head == old(head) && tail == n && old(Repr) <= Repr && n in Repr && this !in Repr && !old(allocated(n))
      requires forall o | o in old(nodes) && o != old(tail) :: unchanged(o)
      requires old(tail).next == n && old(tail).block == old(tail.block) && old(tail).recycle == old(tail.recycle)
      requires old(tail).r == old(tail.r) && old(tail).w == old(tail.w)
      requires n.next == null && n.block == cells[|old(cells)|].block && n.r == cells[|old(cells)|].r
      requires n.w == cells[|old(cells)|].w && n.recycle == cells[|old(cells)|].recycle
      ensures Linked()
    {
      forall i | 0 <= i < |old(nodes)| ensures nodes[i] == old(nodes)[i] && cells[i] == old(cells)[i] {
        assert cells[..|old(cells)|][i] == cells[i];
      }
      forall i | 0 <= i < |old(nodes)| - 1 ensures unchanged(nodes[i]) {
        assert nodes[i] in old(nodes);
      }
    }

    twostate lemma TailStored(new c: Cell)
      requires old(Stored()) && cells == old(cells) + [c] && loans == old(loans) && Shared == old(Shared)
      requires old(Repr) <= Repr && c.block in Repr && Holds(c.block, 0, c.bytes)
      requires forall a: array<byte> | a in old(Repr) || a in old(Shared) :: unchanged(a)
      ensures Stored()
    {
      hide Holds;
    }

    /** The chain after a node with memory was put behind its tail. */
    twostate lemma NodeAdded(new n: Node)
      requires old(Sound()) && this !in old(Repr) && fresh(n) && n.block != null && fresh(n.block)
      requires n.next == null && n.r == 0 == n.w && n.recycle && n.block.Length == nodeBlockSize
      requires unchanged(`head, `rnode, `wnode, `rlen, `nodeBlockSize, `ri, `wi, `loans, `linked, `Shared, `Freed)
      requires tail == n && wlen == old(wlen) + nodeBlockSize && nodes == old(nodes) + [n]
      requires cells == old(cells) + [Cell(n.block, n.block[..], 0, 0, true)] && Repr == old(Repr) + {n, n.block}
      requires forall o | o in old(nodes) && o != old(tail) :: unchanged(o)
      requires forall a: array<byte> | a in old(Repr) || a in old(Shared) :: unchanged(a)
      requires old(tail).next == n && old(tail).block == old(tail.block) && old(tail).recycle == old(tail.recycle)
      requires old(tail).r == old(tail.r) && old(tail).w == old(tail.w)
      ensures Sound() && Contents() == old(Contents()) && Blocks() == old(Blocks())
      ensures wi < |old(cells)| && Space(cells, wi).1 == old(Space(cells, wi).1) + nodeBlockSize
    {
      hide Stream, Packets, Space, Room, Ordered, Memory, Linked, Stored, Holds;
      var c := Cell(n.block, n.block[..], 0, 0, true);
      AddCell(old(cells), ri, wi, c);
      MemoryAdd(old(cells), c, {n, n.block}, loans, old(Repr), Shared, Freed);
      assert Holds(n.block, 0, c.bytes) by { HoldsAll(n.block); }
      TailAdded(n);
      TailStored(c);
    }

    /** Adds a node with memory at the tail. */
    method AddNode()
      requires Sound()
      modifies this`tail, this`wlen, this`nodes, this`cells, this`Repr, tail`next
      ensures Sound() && Contents() == old(Contents()) && Blocks() == old(Blocks())
      ensures |nodes| == |old(nodes)| + 1 && cells[..|old(cells)|] == old(cells)
      ensures |cells[|nodes| - 1].bytes| == nodeBlockSize && cells[|nodes| - 1].w == 0
      ensures wi < |old(cells)| && Space(cells, wi).1 == old(Space(cells, wi).1) + nodeBlockSize
      ensures old(Repr) <= Repr && fresh(Repr - old(Repr))
      ensures Grown(old(cells), cells, nodeBlockSize)
    {
      hide Stream, Packets, Space, Room, Ordered, Memory, Linked, Stored, Holds, Sound, Inv;
      LastNode();
      var n := new Node.WithBlock(nodeBlockSize);
      tail.next := n;
      tail := n;
      wlen := wlen + n.Rest();
      nodes, cells, Repr := nodes + [n], cells + [Cell(n.block, n.block[..], 0, 0, true)], Repr + {n, n.block};
      NodeAdded(n);
    }

    lemma LastNode()
      requires Sound()
      ensures |nodes| == |cells| > 0 && tail == nodes[|nodes| - 1] && tail in Repr && this !in Repr && tail.next == null
      ensures nodeBlockSize > 0
    {
      NodeOk(ri, wi, |nodes| - 1);
    }

    /** Moves the write node past a full node. */
    method NextWriteNode()
      requires Sound() && cells[wi].w == |cells[wi].bytes| && wi + 1 < |nodes|
      modifies this`wnode, this`wi
      ensures Sound() && wi == old(wi) + 1 && cells[wi].w == 0 < |cells[wi].bytes|
      ensures Space(cells, wi).1 == old(Space(cells, wi).1)
    {
      hide Stream, Packets, Space, Room, Ordered, Memory, Linked, Stored;
      NodeOk(ri, wi, wi);
      WriteOn(cells, ri, wi);
      wnode := wnode.next;
      wi := wi + 1;
    }

    lemma WriteState()
      requires Sound()
      ensures ri <= wi < |nodes| == |cells| && wnode == nodes[wi] && this !in Repr && nodeBlockSize > 0
      ensures wnode.Cap() == |cells[wi].bytes| && wnode.w == cells[wi].w <= |cells[wi].bytes|
      ensures wnode.next == null <==> wi == |nodes| - 1
      ensures tail in Repr
    {
      NodeOk(ri, wi, wi);
      LastNode();
    }

    lemma NoRoomAtEnd()
      requires Sound() && wi == |cells| - 1 && cells[wi].w == |cells[wi].bytes|
      ensures Space(cells, wi).1 == 0
    {
      NoRoomLeft(cells);
    }

    /** Moves the write node on, or adds a node, so that the write node has room. */
    method PrepareFill()
      requires Sound()
      modifies this`wnode, this`wi, this`tail, this`wlen, this`nodes, this`cells, this`Repr, Repr
      ensures Sound() && Contents() == old(Contents()) && Blocks() == old(Blocks())
      ensures |nodes| - wi <= |old(nodes)| - old(wi) && (old(wi) == |old(nodes)| - 1 ==> wi == |nodes| - 1)
      ensures wi < |cells| && cells[wi].w < |cells[wi].bytes|
      ensures wi == (if old(wnode.IsFull()) then old(wi) + 1 else old(wi))
      ensures old(Repr) <= Repr && fresh(Repr - old(Repr))
      ensures (|nodes| - wi, Space(cells, wi).1, wnode.Rest()) == old(Prepared())
      ensures Grown(old(cells), cells, nodeBlockSize)
    {
      hide Stream, Packets, Space, Room, Ordered, Memory, Linked, Stored, Sound, Inv;
      WriteState();
      if !wnode.IsFull() { return; }
      if wnode.next == null {
        NoRoomAtEnd();
        AddNode();
        WriteState();
        assert cells[wi] == cells[..|old(cells)|][wi];
      }
      NextWriteNode();
      WriteState();
    }

    /** How many nodes, from the write node on, are wanted for n bytes. */
    function CalNodes(n: int): (c: nat)
      requires wnode != null && nodeBlockSize > 0
      reads this, wnode
    {
      NodesFor(n, wnode.Rest(), nodeBlockSize)
    }

    static function NodesFor(n: int, rest: int, size: nat): (c: nat)
      requires size > 0
    {
      var reqLen := Capped(n) - rest;
      if reqLen <= 0 then 1 else (reqLen + size - 1) / size + 1
    }

    /** As much as one fill may want. */
    static function Capped(n: int): int {
      if n > MAX_FILL_LEN then MAX_FILL_LEN else n
    }

    /** The nodes, the bytes and the bytes of the first node that can be written once a fill is prepared. */
    ghost function Prepared(): (nat, nat, nat)
      requires Sound()
      reads this, Repr, Shared
    {
      WriteState();
      if cells[wi].w < |cells[wi].bytes| then (|cells| - wi, Space(cells, wi).1, |cells[wi].bytes| - cells[wi].w)
      else if wi + 1 < |cells| then (|cells| - wi - 1, Space(cells, wi).1, |cells[wi + 1].bytes|)
      else (1, nodeBlockSize, nodeBlockSize)
    }

    /** The nodes that can be written once a fill of n bytes is prepared and nodes are added for it. */
    ghost function FillNodes(n: int): nat
      requires Sound()
      reads this, Repr, Shared
    {
      WriteState();
      var (have, room, first) := Prepared();
      var want := NodesFor(n, first, nodeBlockSize);
      if want > have then want else have
    }

    /** The bytes that can be written once a fill of n bytes is prepared and nodes are added for it. */
    ghost function FillRoom(n: int): nat
      requires Sound()
      reads this, Repr, Shared
    {
      WriteState();
      var (have, room, first) := Prepared();
      var want := NodesFor(n, first, nodeBlockSize);
      if want > have then room + (want - have) * nodeBlockSize else room
    }

    /** That many nodes are enough, and one fewer would not be. */
    lemma CalNodesExact(n: int)
      requires wnode != null && IsBlockSize(nodeBlockSize) && 0 <= wnode.Rest()
      ensures var c, reqLen := CalNodes(n), Capped(n);
        && 1 <= c <= MAX_NODES
        && reqLen <= wnode.Rest() + (c - 1) * nodeBlockSize
        && (1 < c ==> wnode.Rest() + (c - 1) * nodeBlockSize < reqLen + nodeBlockSize)
    {}

    /** Makes at least nodeNum nodes writable. */
    method Malloc(nodeNum: nat)
      requires Sound()
      modifies this`tail, this`wlen, this`nodes, this`cells, this`Repr, Repr
      ensures Sound() && Contents() == old(Contents()) && Blocks() == old(Blocks())
      ensures |nodes| - wi == if nodeNum > |old(nodes)| - wi then nodeNum else |old(nodes)| - wi
      ensures cells[..|old(cells)|] == old(cells)
      ensures |nodes| > |old(nodes)| ==> |cells[|nodes| - 1].bytes| == nodeBlockSize
      ensures wi < |old(cells)| && Space(cells, wi).1 == old(Space(cells,
        wi).1) + (|nodes| - |old(nodes)|) * nodeBlockSize
      ensures old(Repr) <= Repr && fresh(Repr - old(Repr))
      ensures Grown(old(cells), cells, nodeBlockSize)
    {
      hide Stream, Packets, Space, Room, Ordered, Memory, Linked, Stored, Inv, Sound;
      WriteState();
      var existedN := CountNodes();
      if existedN >= nodeNum { return; }
      var newN, i := nodeNum - existedN, 0;
      while i < newN
        invariant 0 <= i <= newN && Sound() && Contents() == old(Contents()) && Blocks() == old(Blocks())
        invariant |cells| == |nodes| == |old(nodes)| + i && wi < |old(cells)| == |old(nodes)| &&
          cells[..|old(cells)|] == old(cells)
        invariant i > 0 ==> |cells[|nodes| - 1].bytes| == nodeBlockSize
        invariant Space(cells, wi).1 == old(Space(cells, wi).1) + i * nodeBlockSize
        invariant Grown(old(cells), cells, nodeBlockSize)
        invariant old(Repr) <= Repr && fresh(Repr - old(Repr))
      {
        WriteState();
        ghost var before := cells;
        AddNode();
        WriteState();
        assert cells[..|old(cells)|] == before[..|old(cells)|];
        i := i + 1;
      }
    }

    method CountNodes() returns (n: nat)
      requires Sound()
      ensures n == |nodes| - wi && this !in Repr
    {
      hide Stream, Space, Ordered, Memory, Linked, Stored, Inv, Sound;
      WriteState();
      n := 0;
      var node := wnode;
      while node != null
        invariant wi + n <= |nodes| && node == (if wi + n < |nodes| then nodes[wi + n] else null)
        decreases |nodes| - n
      {
        NodeIn(wi + n);
        node := node.next;
        n := n + 1;
      }
    }

    /** Publishes num bytes of memory at a write position. */
    method WriteAt(n: Node, num: nat, ghost m: nat)
      requires Inv(ri, m) && ri <= m < |cells| == |nodes| && n == nodes[m] && num <= n.Rest()
      modifies n`w, this`cells
      ensures Inv(ri, m) && cells == old(cells)[m := WroteCell(old(cells)[m], num)]
      ensures num <= |old(Room(cells, m))| && Contents() == old(Contents()) + old(Room(cells, m))[..num]
      ensures Room(cells, m) == old(Room(cells, m))[num..]
      ensures Space(cells, m) == (old(Space(cells, m)).0, old(Space(cells, m)).1 - num)
    {
      hide Stream, Room, Space, Ordered, Memory, Linked, Stored;
      NodeOk(ri, m, m);
      WriteStep(cells, ri, m, num);
      WriteSpace(cells, ri, m, num);
      MemoryWrote(cells, m, num, loans, Repr, Shared, Freed);
      n.w := n.w + num;
      cells := cells[m := WroteCell(cells[m], num)];
      NodeChanged(m);
      NothingWritten();
    }

    /** One node of Adjust: publishes up to dataLen bytes there. */
    method AdjustStep(node: Node, dataLen: nat, ghost i: nat, ghost before: seq<byte>, ghost room: seq<byte>,
        ghost ack: nat,
                      ghost cs: seq<Cell>)
      returns (take: nat)
      requires Inv(ri, i) && ri <= i < |cells| == |nodes| && node == nodes[i]
      requires ack + dataLen <= |room| && Room(cells, i) == room[ack..] && Contents() == before + room[..ack] &&
        SameCaps(cs, cells)
      modifies node`w, this`cells
      ensures Inv(ri, i) && |cells| == |nodes| && take <= dataLen
      ensures Room(cells, i) == room[ack + take..] && Contents() == before + room[..ack + take]
      ensures Space(cells, i) == (old(Space(cells, i)).0, old(Space(cells, i)).1 - take)
      ensures SameCaps(cs, cells)
      ensures take < dataLen ==> cells[i].w == |cells[i].bytes|
    {
      hide Stream, Room, Space, Ordered, Memory, Linked, Stored, Inv, SameCaps, Cell.Data, Node.Data;
      NodeOk(ri, i, i);
      var rest := node.Rest();
      take := if rest >= dataLen then dataLen else rest;
      TakeTake(before, room, ack, take);
      SameCapsAt(cs, cells, i, WroteCell(cells[i], take));
      WriteAt(node, take, i);
    }

    /** Goes on to the next node after one that took all it could. */
    method AdjustMove(node: Node, ghost i: nat) returns (next: Node)
      requires Inv(ri, i) && ri <= i < |cells| == |nodes| && node == nodes[i]
      requires cells[i].w == |cells[i].bytes| && Room(cells, i) != []
      ensures i + 1 < |cells| && Inv(ri, i + 1) && next == nodes[i + 1]
      ensures Room(cells, i) == Room(cells, i + 1) && Space(cells, i) == Space(cells, i + 1)
    {
      hide Stream, Room, Space, Ordered, Memory, Linked, Stored, Inv;
      NodeOk(ri, i, i);
      if i + 1 == |nodes| { NoRoomLeft(cells); assert false; }
      WriteFurther(i);
      next := node.next;
    }

    /** The loop of Adjust; it ends at the node that takes the last byte. */
    method AdjustLoop(n: nat) returns (node: Node, ghost i: nat)
      requires Sound() && n <= |Room(cells, wi)|
      modifies this`cells, Repr
      ensures Inv(ri, i) && ri <= wi <= i < |cells| && |cells| == |nodes| && node == nodes[i]
      ensures Contents() == old(Contents()) + old(Room(cells, wi))[..n]
      ensures Space(cells, i) == (old(Space(cells, wi)).0, old(Space(cells, wi)).1 - n)
      ensures SameCaps(old(cells), cells)
      ensures n == 0 ==> i == wi
    {
      hide Stream, Room, Space, Ordered, Memory, Linked, Stored, Inv, SameCaps, Sound, IsBlockSize;
      SoundOpened();
      var dataLen: nat, ack: nat := n, 0;
      node, i := wnode, wi;
      ghost var room, before := Room(cells, wi), Contents();
      SameCapsAll(cells, cells, cells);
      while true
        invariant ri <= wi <= i < |cells| && |cells| == |nodes| && node == nodes[i] && Inv(ri, i)
        invariant n == 0 ==> i == wi
        invariant ack + dataLen == n && Room(cells, i) == room[ack..] && Contents() == before + room[..ack]
        invariant Space(cells, i) == (old(Space(cells, wi)).0, old(Space(cells, wi)).1 - ack)
        invariant SameCaps(old(cells), cells)
        decreases |nodes| - i
      {
        NodeRepr(i);
        var take := AdjustStep(node, dataLen, i, before, room, ack, old(cells));
        dataLen, ack := dataLen - take, ack + take;
        if dataLen == 0 { break; }
        node := AdjustMove(node, i);
        i := i + 1;
      }
    }

    lemma NodeRepr(i: nat)
      requires Inv(ri, i) && i < |nodes|
      ensures nodes[i] in Repr && this !in Repr
    {
      NodeOk(ri, i, i);
    }

    lemma WriteFurther(m: nat)
      requires Inv(ri, m) && m + 1 < |cells| && cells[m].w == |cells[m].bytes|
      ensures Inv(ri, m + 1) && Room(cells, m) == Room(cells, m + 1) && Space(cells, m) == Space(cells, m + 1)
    {
      hide Room, Space, Memory, Linked, Stored;
      WriteOn(cells, ri, m);
    }

    /** Makes n bytes of the memory at the write node readable. */
    method Adjust(n: nat)
      requires Sound() && n <= |Room(cells, wi)|
      modifies this`cells, this`wnode, this`wi, this`wlen, this`rlen, Repr
      ensures Sound() && Contents() == old(Contents()) + old(Room(cells, wi))[..n]
      ensures old(wi) <= wi < |cells| && Space(cells, wi).1 == old(Space(cells, wi)).1 - n
      ensures SameCaps(old(cells), cells)
      ensures n == 0 ==> wi == old(wi)
    {
      hide Stream, Room, Space, Ordered, Memory, Linked, Stored, SameCaps, Sound, Inv, IsBlockSize;
      SoundOpened();
      ghost var i;
      wnode, i := AdjustLoop(n);
      wi := i;
      wlen := wlen - n;
      rlen := rlen + n;
      SoundClosed();
    }

    /** One block was written, and everything that is kept in it still stands. */
    twostate lemma BlockWritten(i: nat)
      requires old(Stored()) && i < |cells| == |old(cells)| && cells[i].block != null &&
        cells[i].block == old(cells)[i].block
      requires forall j | 0 <= j < |cells| && j != i :: cells[j] == old(cells)[j] && cells[j].block != cells[i].block
      requires Repr == old(Repr) && Shared == old(Shared) && loans == old(loans)
      requires Holds(cells[i].block, 0, cells[i].bytes)
      requires forall l | l in loans && l.arr == cells[i].block :: Holds(l.arr, l.lo, l.bytes)
      requires forall a: array<byte> | (a in Repr || a in Shared) && a != cells[i].block :: unchanged(a)
      ensures Stored()
    {
      hide Holds;
      forall j | 0 <= j < |cells| && j != i ensures Holds(cells[j].block, 0, cells[j].bytes) {
        assert old(Holds(cells[j].block, 0, cells[j].bytes));
      }
      forall l | l in loans && l.arr != cells[i].block ensures Holds(l.arr, l.lo, l.bytes) {
        assert old(Holds(l.arr, l.lo, l.bytes));
      }
    }

    /** Loans below an offset survive a write above it. */
    twostate lemma LoansKept(i: nat, new w: nat)
      requires old(Stored()) && loans == old(loans) && i < |cells| == |old(cells)|
      requires cells[i].block != null && cells[i].block == old(cells)[i].block && w <= cells[i].block.Length
      requires forall j | 0 <= j < w :: cells[i].block[j] == old(cells[i].block[j])
      requires forall l | l in loans && l.arr == cells[i].block :: l.lo + |l.bytes| <= w
      ensures forall l | l in loans && l.arr == cells[i].block :: Holds(l.arr, l.lo, l.bytes)
    {
      forall l | l in loans && l.arr == cells[i].block ensures Holds(l.arr, l.lo, l.bytes) {
        assert old(Holds(l.arr, l.lo, l.bytes));
        assert forall j | 0 <= j < |l.bytes| :: l.bytes[j] == old(l.arr[l.lo..l.lo + |l.bytes|])[j];
      }
    }

    /** What the free memory of node i is like. */
    lemma RoomAtNode(i: nat, x: seq<byte>)
      requires Sound() && wi <= i < |nodes| && |x| <= nodes[i].Rest()
      ensures i < |cells| && cells[i].Ok() && cells[i].w + |x| <= |cells[i].bytes|
      ensures Ordered(cells[i := Stamp(cells[i], x)], ri, wi) && Stream(cells[i := Stamp(cells[i], x)]) == Contents()
      ensures Space(cells[i := Stamp(cells[i], x)], wi) == Space(cells, wi)
      ensures Memory(cells[i := Stamp(cells[i], x)], loans, Repr, Shared, Freed)
      ensures |x| > 0 ==>
        && cells[i].block != null && cells[i].block in Repr && cells[i].block.Length == |cells[i].bytes|
        && cells[i].block[..] == cells[i].bytes
        && (forall j | 0 <= j < |cells| && j != i :: cells[j].block != cells[i].block)
        && (forall l | l in loans && l.arr == cells[i].block :: l.lo + |l.bytes| <= cells[i].w)
    {
      hide Flat, Datas, Space, Ordered, Memory, Linked, Stored;
      NodeOk(ri, wi, i);
      StampStep(cells, ri, wi, i, x);
      StampSpace(cells, ri, wi, i, x);
      MemoryStamp(cells, i, x, loans, Repr, Shared, Freed);
      if |x| > 0 {
        RoomIsPrivate(cells, ri, wi, i, loans, Repr, Shared, Freed);
        BlockHolds(i);
      }
    }

    /** Writes x into the block of node i, which no other node uses and no loan reaches into from there on. */
    method StampBlock(node: Node, x: seq<byte>, ghost i: nat)
      requires Linked() && Stored() && i < |nodes| == |cells| && node == nodes[i] && node.block in Repr && this !in Repr
      requires node.block == cells[i].block != null && node.w == cells[i].w && node.block.Length == |cells[i].bytes|
      requires node.w + |x| <= |cells[i].bytes| && node.block[..] == cells[i].bytes
      requires forall j | 0 <= j < |cells| && j != i :: cells[j].block != cells[i].block
      requires forall l | l in loans && l.arr == cells[i].block :: l.lo + |l.bytes| <= cells[i].w
      modifies this`cells, node.block
      ensures Linked() && Stored() && cells == old(cells)[i := Stamp(old(cells)[i], x)]
    {
      hide Linked, Stored, Holds;
      MirrorOf(i);
      WriteBytes(node.block, node.w, x);
      cells := cells[i := Stamp(cells[i], x)];
      HoldsAll(node.block);
      LoansKept(i, node.w);
      BlockWritten(i);
      NodeChanged(i);
    }

    lemma MirrorOf(i: nat)
      requires Linked() && i < |nodes|
      ensures i < |cells| && nodes[i].block == cells[i].block && nodes[i].r == cells[i].r
      ensures nodes[i].w == cells[i].w && nodes[i].recycle == cells[i].recycle
    {}

    /** Writes x into the room of node i. */
    method StampAt(node: Node, x: seq<byte>, ghost i: nat)
      requires Sound() && wi <= i < |nodes| && node == nodes[i] && |x| <= node.Rest()
      modifies this`cells, Repr
      ensures Sound() && |cells| == |old(cells)| && |x| <= |old(cells)[i].bytes| - old(cells)[i].w
      ensures cells == old(cells)[i := Stamp(old(cells)[i], x)]
      ensures Contents() == old(Contents()) && Space(cells, wi) == old(Space(cells, wi))
    {
      hide Stream, Space, Ordered, Memory, Linked, Stored, Sound, Inv, IsBlockSize, Cell.Data, Node.Data, Holds;
      SoundOpened();
      InvOpened(ri, wi);
      NodeOk(ri, wi, i);
      RoomAtNode(i, x);
      if |x| > 0 {
        StampBlock(node, x, i);
        InvClosed(ri, wi);
        SoundClosed();
      } else {
        assert Stamp(cells[i], x).bytes == cells[i].bytes;
        assert cells[i := Stamp(cells[i], x)] == cells;
      }
    }

    lemma InvOpened(k: nat, m: nat)
      requires Inv(k, m)
      ensures Linked() && Stored() && Ordered(cells, k, m) && Memory(cells, loans, Repr, Shared, Freed)
    {}

    lemma InvClosed(k: nat, m: nat)
      requires Linked() && Stored() && Ordered(cells, k, m) && Memory(cells, loans, Repr, Shared, Freed)
      ensures Inv(k, m)
    {}

    lemma BlockHolds(i: nat)
      requires Sound() && i < |cells|
      ensures cells[i].block == null || (|cells[i].bytes| == cells[i].block.Length &&
        cells[i].block[..] == cells[i].bytes)
    {
      assert Holds(cells[i].block, 0, cells[i].bytes);
      NodeOk(ri, wi, i);
    }

    /** One node of Scatter. */
    method ScatterAt(node: Node, src: seq<byte>, copied: nat, ghost i: nat) returns (num: nat)
      requires Sound() && wi <= i < |nodes| && node == nodes[i] && copied <= |src|
      requires Room(cells[..i], wi) == src[..copied]
      modifies this`cells, Repr
      ensures Sound() && Contents() == old(Contents()) && Space(cells, wi) == old(Space(cells, wi))
      ensures SameCaps(old(cells), cells) && copied + num <= |src|
      ensures src[..copied + num] <= Room(cells, wi)
      ensures copied + num < |src| ==> Room(cells[..i + 1], wi) == src[..copied + num]
    {
      hide Stream, Room, Space, Ordered, Memory, Linked, Stored, Stamp;
      NodeOk(ri, wi, i);
      num := if node.Rest() < |src| - copied then node.Rest() else |src| - copied;
      ghost var x := src[copied..copied + num];
      TakeMore(src, copied, num);
      ScatterStep(cells, ri, wi, i, src[..copied], x);
      StampCell(cells[i], x);
      StampAt(node, src[copied..copied + num], i);
    }

    /** Writes as much of src as there is room for into the free memory, node after node. */
    method Scatter(src: seq<byte>) returns (copied: nat)
      requires Sound()
      modifies this`cells, Repr
      ensures Sound() && Contents() == old(Contents()) && Space(cells, wi) == old(Space(cells, wi))
      ensures SameCaps(old(cells), cells)
      ensures copied == if |src| < |Room(cells, wi)| then |src| else |Room(cells, wi)|
      ensures src[..copied] == Room(cells, wi)[..copied]
    {
      hide Stream, Room, Space, Ordered, Memory, Linked, Stored, Stamp, SameCaps, Sound, Inv;
      WriteState();
      copied := 0;
      var node := wnode;
      ghost var i := wi;
      NoRoomBefore(cells, wi);
      SameCapsAll(cells, cells, cells);
      while node != null
        invariant wi <= i <= |nodes| == |cells| && node == (if i < |nodes| then nodes[i] else null)
        invariant Sound() && Contents() == old(Contents()) && Space(cells, wi) == old(Space(cells, wi))
        invariant SameCaps(old(cells), cells) && copied <= |src| && Room(cells[..i], wi) == src[..copied]
        decreases |nodes| - i
      {
        ghost var cs := cells;
        var num := ScatterAt(node, src, copied, i);
        SameCapsAll(old(cells), cs, cells);
        NodeIn(i);
        copied := copied + num;
        if copied >= |src| { return; }
        node := node.next;
        i := i + 1;
      }
      assert cells[..i] == cells;
    }

    /** Appends as much of one slice as there is room for. */
    method CopySingle(buf: seq<byte>) returns (copied: nat)
      requires Sound()
      modifies this`cells, this`wnode, this`wi, this`wlen, this`rlen, Repr
      ensures Sound() && copied <= |buf| && Contents() == old(Contents()) + buf[..copied]
      ensures copied == if |buf| < old(Space(cells, wi)).1 then |buf| else old(Space(cells, wi)).1
      ensures old(wi) <= wi < |cells| && Space(cells, wi).1 == old(Space(cells, wi)).1 - copied
      ensures SameCaps(old(cells), cells)
      ensures copied == 0 ==> wi == old(wi)
    {
      hide Stream, Room, Ordered, Memory, Linked, Stored, SameCaps;
      WriteState();
      copied := Scatter(buf);
      ghost var cs := cells;
      Adjust(copied);
      SameCapsAll(old(cells), cs, cells);
    }

    /** The nodes a copy write of this length needs. */
    method Prepare(length: int)
      requires Sound()
      modifies this`wnode, this`wi, this`tail, this`wlen, this`nodes, this`cells, this`Repr, Repr
      ensures Sound() && Contents() == old(Contents()) && Blocks() == old(Blocks())
      ensures wi < |cells| && cells[wi].w < |cells[wi].bytes|
      ensures wi == (if old(wnode.IsFull()) then old(wi) + 1 else old(wi))
      ensures |nodes| - wi <= (if |old(nodes)| - old(wi) > MAX_NODES then |old(nodes)| - old(wi) else MAX_NODES)
      ensures old(wi) == |old(nodes)| - 1 ==> JustEnough(length)
      ensures old(Repr) <= Repr && fresh(Repr - old(Repr))
      ensures Space(cells, wi).1 == old(FillRoom(length))
      ensures Grown(old(cells), cells, nodeBlockSize)
      ensures |nodes| - wi == old(FillNodes(length))
    {
      hide Stream, Packets, Space, Room, Ordered, Memory, Linked, Stored, Sound, Inv, JustEnough, Grown, Prepared,
        FillRoom, FillNodes, NodesFor;
      ghost var (have, room, first) := Prepared();
      ghost var tight := wi == |nodes| - 1;
      FillFacts(length);
      WriteState();
      PrepareFill();
      WriteState();
      SpaceAtTail();
      CalNodesExact(length);
      ghost var cs := cells;
      Malloc(CalNodes(length));
      WriteState();
      assert cells[wi] == cells[..|cs|][wi] == cs[wi];
      GrownMore(old(cells), cs, cells, nodeBlockSize);
      if tight { Tight(length, room, |cells| - |cs|); }
    }

    lemma FillFacts(n: int)
      requires Sound()
      ensures nodeBlockSize > 0
      ensures var (have, room, first) := Prepared();
        var want := NodesFor(n, first, nodeBlockSize);
        && FillNodes(n) == (if want > have then want else have)
        && FillRoom(n) == room + (FillNodes(n) - have) * nodeBlockSize
        && (wi == |nodes| - 1 ==> have == 1 && room == first)
    {
      WriteState();
      SpaceAtTail();
      hide Sound, NodesFor, Space;
    }

    /** With one node, what is added is just enough. */
    lemma Tight(length: int, rest: nat, added: nat)
      requires Sound() && IsBlockSize(nodeBlockSize) && wi < |cells| == |nodes| && |nodes| - wi == 1 + added
      requires Space(cells, wi).1 == rest + added * nodeBlockSize
      requires added + 1 == NodesFor(length, rest, nodeBlockSize)
      requires added > 0 ==> |cells[|cells| - 1].bytes| == nodeBlockSize
      ensures JustEnough(length)
    {
      hide Stream, Packets, Space, Room, Ordered, Memory, Linked, Stored, Inv;
    }

    /**
     The room is enough for what a call may write, and if more than one node is writable then less than the
     last one is to spare.
     */
    ghost predicate JustEnough(length: int)
      requires wi < |cells| == |nodes|
      reads this`wi, this`cells, this`nodes
    {
      var req := if length > MAX_FILL_LEN then MAX_FILL_LEN else length;
      && req <= Space(cells, wi).1
      && (wi < |cells| - 1 ==> Space(cells, wi).1 < req + |cells[|cells| - 1].bytes|)
    }

    lemma SpaceAtTail()
      requires Sound()
      ensures wi == |nodes| - 1 ==> Space(cells, wi).1 == wnode.Rest()
      ensures 0 <= wnode.Rest() && IsBlockSize(nodeBlockSize)
    {
      NodeOk(ri, wi, wi);
      RoomAt(cells, wi);
    }

    /** Copy writes leave no unused node behind. */
    lemma NothingToSpare()
      requires Sound() && wi < |cells| - 1
      ensures |cells[|cells| - 1].bytes| <= Space(cells, wi).1
    {
      TailRoom(cells, ri, wi);
    }

    /** The loop of CopyFrom. */
    method CopyLoop(bs: seq<array<byte>>) returns (copied: nat)
      requires Sound() && forall b | b in bs :: b !in Repr
      modifies this`cells, this`wnode, this`wi, this`wlen, this`rlen, Repr
      ensures Sound() && copied <= |Flat(Texts(bs))| && Contents() == old(Contents()) + Flat(Texts(bs))[..copied]
      ensures var n, room := |Flat(Texts(bs))|, old(Space(cells, wi)).1; copied == if n < room then n else room
      ensures old(wi) <= wi < |cells| && Space(cells, wi).1 == old(Space(cells, wi)).1 - copied
      ensures SameCaps(old(cells), cells)
      ensures copied == 0 ==> wi == old(wi)
    {
      hide Flat, Stream, Space, Room, Ordered, Memory, Linked, Stored, SameCaps, Sound, Inv, Texts;
      WriteState();
      copied := 0;
      ghost var texts, room := Texts(bs), Space(cells, wi).1;
      SameCapsAll(cells, cells, cells);
      EmptyPieces([]);
      assert texts[..0] == [];
      for i := 0 to |bs|
        invariant Sound() && Texts(bs) == texts && this !in Repr
        invariant copied <= |Flat(texts[..i])| && Contents() == old(Contents()) + Flat(texts[..i])[..copied]
        invariant copied == if |Flat(texts[..i])| < room then |Flat(texts[..i])| else room
        invariant old(wi) <= wi < |cells| && Space(cells, wi).1 == room - copied && (copied == 0 ==> wi == old(wi))
        invariant SameCaps(old(cells), cells)
      {
        FlatTo(texts, i);
        ghost var cs := cells;
        var c := CopySingle(bs[i][..]);
        SameCapsAll(old(cells), cs, cells);
        WriteState();
        AppendPiece(Flat(texts[..i]), texts[i], copied, c);
        copied := copied + c;
      }
      assert texts[..|bs|] == texts;
    }

    /** Copies the slices into the buffer's own memory; a prefix of them when they are longer than the room. */
    method CopyFrom(bs: seq<array<byte>>) returns (copied: nat)
      requires Valid() && forall b | b in bs :: b !in Repr
      modifies this`wnode, this`wi, this`tail, this`wlen, this`rlen, this`nodes, this`cells, this`Repr, Repr
      ensures Valid() && copied <= |Flat(Texts(bs))| && Contents() == old(Contents()) + Flat(Texts(bs))[..copied]
      ensures copied == Least(|Flat(Texts(bs))|, old(FillRoom(|Flat(Texts(bs))|)))
      ensures !filled ==> copied >= Least(|Flat(Texts(bs))|, MAX_FILL_LEN)
      ensures old(Repr) <= Repr && fresh(Repr - old(Repr))
      ensures copied == 0 ==> wi == (if old(wnode.IsFull()) then old(wi) + 1 else old(wi))
    {
      hide Flat, Stream, Space, Room, Ordered, Memory, Linked, Stored, Sound, Inv, SameCaps, Texts;
      LenOfTexts(bs);
      SoundNow();
      Prepare(ByteSlicesLen(bs));
      WriteState();
      ghost var cs := cells;
      copied := CopyLoop(bs);
      WriteState();
      SameTail(cs);
      if wi < |cells| - 1 { NothingToSpare(); }
    }

    lemma SoundNow()
      requires Valid()
      ensures Sound() && this !in Repr && |nodes| - wi <= MAX_NODES && (!filled ==> wi == |nodes| - 1)
      ensures wi < |nodes| == |cells|
    {
      NodeOk(ri, wi, ri);
    }

    lemma SameTail(cs: seq<Cell>)
      requires SameCaps(cs, cells) && |cells| > 0
      ensures |cs| == |cells| && |cells[|cells| - 1].bytes| == |cs[|cells| - 1].bytes|
    {}

    // ---- filling ----

    /** The free memory of every node from the write node on, as it is handed to the reader. */
    method ByteVec() returns (vec: seq<Slice>)
      requires Sound() && cells[wi].w < |cells[wi].bytes|
      ensures |vec| == |nodes| - wi
      ensures forall j | 0 <= j < |vec| :: vec[j] == Slice(cells[wi + j].block, cells[wi + j].w, |cells[wi + j].bytes|)
    {
      hide Stream, Space, Ordered, Memory, Linked, Stored, Holds, Inv, Sound, Cell.Data, Node.Data;
      WriteState();
      vec := [];
      var node := wnode;
      while node != null
        invariant wi + |vec| <= |nodes| && node == (if wi + |vec| < |nodes| then nodes[wi + |vec|] else null)
        invariant forall j | 0 <= j < |vec| :: vec[j] == Slice(cells[wi + j].block, cells[wi + j].w,
          |cells[wi + j].bytes|)
        decreases |nodes| - |vec|
      {
        NodeIn(wi + |vec|);
        vec := vec + [Slice(node.block, node.w, node.Cap())];
        node := node.next;
      }
    }

    /** The slices handed to the reader are nonempty, writable, and pairwise disjoint. */
    lemma VecOk(vec: seq<Slice>)
      requires Sound() && cells[wi].w < |cells[wi].bytes| && |vec| == |nodes| - wi
      requires forall j | 0 <= j < |vec| :: vec[j] == Slice(cells[wi + j].block, cells[wi + j].w, |cells[wi + j].bytes|)
      ensures PrivateWindows(vec, Repr)
    {
      assert forall i | wi <= i < |cells| :: cells[i].w < |cells[i].bytes|;
      forall j | 0 <= j < |vec|
        ensures vec[j].arr != null && vec[j].arr in Repr && vec[j].InBounds() && vec[j].lo < vec[j].hi
      {
        RoomIsPrivate(cells, ri, wi, wi + j, loans, Repr, Shared, Freed);
      }
      forall i, j | 0 <= i < j < |vec| ensures vec[i].arr != vec[j].arr {
        RoomIsPrivate(cells, ri, wi, wi + i, loans, Repr, Shared, Freed);
      }
    }

    lemma CellsOk()
      requires Sound()
      ensures |nodes| == |cells| && wi < |cells| && forall i | 0 <= i < |cells| :: cells[i].w <= |cells[i].bytes|
    {
      hide Linked, Stored, Memory, Stream, Space;
    }

    static lemma GrownMore(a: seq<Cell>, b: seq<Cell>, c: seq<Cell>, size: nat)
      ensures Grown(a, b, size) && Grown(b, c, size) ==> Grown(a, c, size)
      ensures Grown(a, a, size)
    {}

    static lemma GrownSame(a: seq<Cell>, b: seq<Cell>, c: seq<Cell>, size: nat)
      requires Grown(a, b, size) && SameCaps(b, c)
      ensures Grown(a, c, size)
    {}

    /** The nodes that can be written have as much room as if those after the first were of the present block size. */
    ghost predicate Roomy()
      requires Sound()
      reads this, Repr, Shared
    {
      var (have, room, first) := Prepared();
      room >= MAX_FILL_LEN || room >= first + (have - 1) * nodeBlockSize
    }

    /**
     Every fill finds room for what it asks exactly when the writable nodes are roomy. When they are not, it need not:
     the nodes it counts are fewer bytes than it takes them for, see ShortFill.
     */
    lemma EnoughIff()
      requires Sound()
      ensures Roomy() <==> forall n: int :: FillRoom(n) >= Capped(n)
    {
      SpaceAtTail();
      WriteState();
      hide Sound, Inv, Space, Room, Ordered, NodesFor, Capped;
      var (have, room, first) := Prepared();
      if Roomy() {
        forall n: int ensures FillRoom(n) >= Capped(n) {
          NodesEnough(n, first, have, room, nodeBlockSize);
        }
      } else {
        var n := NodesShort(first, have, room, nodeBlockSize);
        assert FillRoom(n) < Capped(n);
      }
    }

    static lemma NodesShort(first: nat, have: nat, room: nat, size: nat) returns (n: int)
      requires IsBlockSize(size) && have >= 1 && room < MAX_FILL_LEN && room < first + (have - 1) * size
      ensures NodesFor(n, first, size) <= have && room < Capped(n)
    {
      n := Least(MAX_FILL_LEN, first + (have - 1) * size);
    }

    /** They are roomy if no node after the write node is smaller than the present block size. */
    lemma EnoughRoom(n: int)
      requires Sound() && forall i | wi < i < |cells| :: |cells[i].bytes| >= nodeBlockSize
      ensures Roomy() && FillRoom(n) >= Capped(n)
    {
      hide Sound, Inv, Space, Room, Ordered, NodesFor, Capped;
      SpaceAtTail();
      PreparedRoom();
      EnoughIff();
    }

    lemma PreparedRoom()
      requires Sound() && forall i | wi < i < |cells| :: |cells[i].bytes| >= nodeBlockSize
      ensures var (have, room, first) := Prepared(); have >= 1 && room >= first + (have - 1) * nodeBlockSize
    {
      WriteState();
      AllUnwritten();
      hide Sound, Inv, Room, Ordered;
      if cells[wi].w < |cells[wi].bytes| {
        RoomAtLeast(cells, wi, nodeBlockSize);
      } else if wi + 1 < |cells| {
        RoomAtLeast(cells, wi + 1, nodeBlockSize);
        RoomAt(cells, wi);
      }
    }

    static lemma NodesEnough(n: int, first: nat, have: nat, room: nat, size: nat)
      requires IsBlockSize(size) && have >= 1 && (room >= MAX_FILL_LEN || room >= first + (have - 1) * size)
      ensures var want := NodesFor(n, first, size);
        && (want > have ==> room + (want - have) * size >= Capped(n))
        && (want <= have ==> room >= Capped(n))
    {}

    /** A new buffer makes room for a first fill of four nodes. */
    lemma FirstRoom()
      requires Sound() && cells == [Cell(null, [], 0, 0, false)] && wi == 0 && nodeBlockSize == BLOCK_SIZE
      ensures FillRoom(16384) == 16384 && FillNodes(16384) == 4
    {
      WriteState();
    }

    lemma UnwrittenAfter(i: nat)
      requires Valid() && wi < i < |cells|
      ensures cells[i].w == 0
    {}

    lemma AllUnwritten()
      requires Sound()
      ensures forall i | wi < i < |cells| :: cells[i].w == 0
    {}

    /** The part of Fill that holds the write lock. */
    method FillLocked(n: int, incoming: seq<byte>, fail: bool) returns (vec: seq<Slice>, actual: nat, err: Error)
      requires Sound() && |nodes| - wi <= MAX_NODES
      modifies this`wnode, this`wi, this`tail, this`wlen, this`rlen, this`nodes, this`cells, this`Repr, Repr
      ensures Sound() && |nodes| - wi <= MAX_NODES
      ensures actual <= |incoming| && Contents() == old(Contents()) + incoming[..actual]
      ensures err == (if fail then ErrReader else NoError) && 1 <= |vec| <= MAX_NODES && PrivateWindows(vec, Repr)
      ensures fail ==> actual == 0
      ensures actual == 0 ==> wi == (if old(wnode.IsFull()) then old(wi) + 1 else old(wi))
      ensures TotalLen(vec) == old(FillRoom(n)) && (!fail ==> actual == Least(|incoming|, TotalLen(vec)))
      ensures wi < |cells| && Space(cells, wi).1 == TotalLen(vec) - actual
      ensures TotalLen(vec) > 0 && Grown(old(cells), cells, nodeBlockSize) && |vec| == old(FillNodes(n))
      ensures |cells| == old(wi) + (if old(wnode.IsFull()) then 1 else 0) + |vec|
      ensures old(Repr) <= Repr && fresh(Repr - old(Repr))
    {
      hide Stream, Space, Room, Ordered, Memory, Linked, Stored, Sound, Inv, SameCaps, JustEnough, PrivateWindows,
        TotalLen, Grown;
      WriteState();
      Prepare(n);
      WriteState();
      vec := ByteVec();
      VecOk(vec);
      CellsOk();
      WindowsFit(cells, wi, vec);
      SomeRoom();
      if fail { return vec, 0, ErrReader; }
      ghost var cs := cells;
      actual := CopySingle(incoming);
      WriteState();
      SameTail(cs);
      GrownSame(old(cells), cs, cells, nodeBlockSize);
      err := NoError;
    }

    /**
     Fills the buffer from a reader: the reader is handed the windows in vec, and either fails or puts into
     them as much of what it has as they can take. When nothing came, the write node has moved exactly if it was full.
     */
    method Fill(n: int, incoming: seq<byte>, fail: bool) returns (vec: seq<Slice>, actual: nat, err: Error)
      requires Valid()
      modifies this`filled, this`wnode, this`wi, this`tail, this`wlen, this`rlen, this`nodes, this`cells, this`Repr,
        Repr
      ensures Valid() && actual <= |incoming| && Contents() == old(Contents()) + incoming[..actual]
      ensures err == if |old(Contents())| > MAX_BUFFER_SIZE then ErrBufferFull else if fail then ErrReader else NoError
      ensures err == ErrBufferFull ==> vec == []
      ensures err != ErrBufferFull ==> 1 <= |vec| <= MAX_NODES
      ensures PrivateWindows(vec, Repr)
      ensures err != NoError ==> actual == 0
      ensures err == ErrBufferFull ==> wi == old(wi)
      ensures err != ErrBufferFull && actual == 0 ==> wi == (if old(wnode.IsFull()) then old(wi) + 1 else old(wi))
      ensures err != ErrBufferFull ==> TotalLen(vec) == old(FillRoom(n)) > 0
      ensures err == NoError ==> actual == Least(|incoming|, TotalLen(vec))
      ensures err != ErrBufferFull && !old(filled) ==> TotalLen(vec) >= Capped(n)
      ensures wi < |cells| && (err != ErrBufferFull ==> Space(cells, wi).1 == TotalLen(vec) - actual)
      ensures Grown(old(cells), cells, nodeBlockSize)
      ensures err != ErrBufferFull ==>
        |vec| == old(FillNodes(n)) && |cells| == old(wi) + (if old(wnode.IsFull()) then 1 else 0) + |vec|
      ensures old(Repr) <= Repr && fresh(Repr - old(Repr))
    {
      hide Stream, Space, Ordered, Memory, Linked, Stored, Sound, Inv, PrivateWindows, Grown, TotalLen, Prepared,
        NodesFor, FillRoom, FillNodes;
      vec, actual := [], 0;
      SoundNow();
      Lengths();
      NoWindows(Repr);
      GrownMore(cells, cells, cells, nodeBlockSize);
      if rlen > MAX_BUFFER_SIZE { return vec, 0, ErrBufferFull; }
      if !filled { EnoughRoom(n); }
      filled := true;
      StillSound();
      vec, actual, err := FillLocked(n, incoming, fail);
    }

    lemma SomeRoom()
      requires Sound() && cells[wi].w < |cells[wi].bytes|
      ensures 0 < Space(cells, wi).1
    {
      RoomAt(cells, wi);
    }

    twostate lemma StillSound()
      requires old(Sound()) && wi == old(wi) && ri == old(ri) && nodes == old(nodes) && cells == old(cells)
      requires head == old(head) && tail == old(tail) && rnode == old(rnode) && wnode == old(wnode)
      requires rlen == old(rlen) && wlen == old(wlen) && nodeBlockSize == old(nodeBlockSize)
      requires old(linked) ==> linked
      requires loans == old(loans) && Repr == old(Repr) && Shared == old(Shared) && Freed == old(Freed) && this !in Repr
      requires forall o | o in Repr :: unchanged(o)
      requires forall a | a in Shared :: unchanged(a)
      ensures Sound() && Contents() == old(Contents())
      ensures forall n :: FillRoom(n) == old(FillRoom(n)) && FillNodes(n) == old(FillNodes(n))
    {
      hide Stream, Space, Ordered, Memory, Linked, Stored;
    }

    // ---- linking ----

    twostate lemma CellLinked(i: nat)
      requires old(Stored()) && i < |cells| == |old(cells)| && cells[i].block != null
      requires forall j | 0 <= j < |cells| && j != i :: cells[j] == old(cells)[j]
      requires Repr == old(Repr) && Shared == old(Shared) + {cells[i].block} && loans == old(loans)
      requires Holds(cells[i].block, 0, cells[i].bytes)
      requires forall a: array<byte> | a in old(Repr) || a in old(Shared) :: unchanged(a)
      ensures Stored()
    {
      hide Holds;
      forall j | 0 <= j < |cells| && j != i ensures Holds(cells[j].block, 0, cells[j].bytes) {
        assert old(Holds(cells[j].block, 0, cells[j].bytes));
      }
    }

    /** The chain after a caller's memory was linked into node i. */
    twostate lemma Relinked(i: nat)
      requires old(Inv(ri, wi)) && old(wi) <= i < |nodes| == |cells| == |old(cells)| && old(cells)[i].w == 0
      requires nodes == old(nodes) && head == old(head) && tail == old(tail) && Repr == old(Repr) && ri == old(ri)
      requires cells == old(cells)[i := cells[i]] && cells[i].block != null && cells[i].block !in Repr
      requires cells[i] == LinkedCell(cells[i].block, cells[i].block[..])
      requires Shared == old(Shared) + {cells[i].block} && loans == old(loans) &&
        Freed == old(Freed) + OwnBlock(old(cells)[i])
      requires forall o | o in nodes && o != nodes[i] :: unchanged(o)
      requires nodes[i].next == old(nodes[i].next) && nodes[i].r == old(nodes[i].r)
      requires nodes[i].block == cells[i].block && nodes[i].w == cells[i].w && !nodes[i].recycle
      requires forall a: array<byte> | a in old(Repr) || a in old(Shared) :: unchanged(a)
      ensures Inv(ri, i) && Blocks() == old(Blocks()) + NonEmpty([cells[i].bytes]) &&
        Contents() == old(Contents()) + cells[i].bytes
    {
      hide Stream, Packets, Ordered, Memory, Linked, Stored, Holds;
      OldCell(i);
      LinkStep(old(cells), ri, old(wi), i, cells[i].block, cells[i].bytes);
      MemoryLink(old(cells), i, cells[i].block, cells[i].bytes, loans, Repr, old(Shared), old(Freed));
      HoldsAll(cells[i].block);
      CellLinked(i);
      NodeChanged(i);
    }

    twostate lemma OldCell(i: nat)
      requires old(Inv(ri, wi)) && i < |old(nodes)|
      ensures i < |old(cells)| && old(cells)[i].Ok() && old(nodes[i].r) == old(cells)[i].r
    {}

    /** Links a caller's memory into an unwritten node. */
    method LinkAt(node: Node, b: array<byte>, ghost i: nat)
      requires Inv(ri, wi) && ri <= wi <= i < |cells| == |nodes| && node == nodes[i] && node.w == 0 && b !in Repr
      modifies node`block, node`w, node`recycle, this`cells, this`Shared, this`Freed
      ensures Inv(ri, i) && |cells| == |nodes| && Shared == old(Shared) + {b}
      ensures Blocks() == old(Blocks()) + NonEmpty([b[..]]) && Contents() == old(Contents()) + b[..]
    {
      hide Stream, Packets, Ordered, Memory, Linked, Stored, Holds, Inv;
      NodeOk(ri, wi, i);
      ghost var freed := node.SetBlock(b);
      LinkGhost(i, b, freed);
      Relinked(i);
    }

    ghost method LinkGhost(i: nat, b: array<byte>, freed: multiset<array<byte>>)
      requires i < |cells|
      modifies this`cells, this`Shared, this`Freed
      ensures cells == old(cells)[i := LinkedCell(b, b[..])] && Shared == old(Shared) + {b} &&
        Freed == old(Freed) + freed
    {
      cells, Shared, Freed := cells[i := LinkedCell(b, b[..])], Shared + {b}, Freed + freed;
    }

    /** The nodes from start to i have been linked to, but for the first if it was written; the last is w. */
    static ghost predicate LinkedSoFar(start: nat, unwritten: bool, i: nat, w: nat, count: nat) {
      && start <= w && w == (if i == start then i else i - 1)
      && count == i - start - (if i > start && !unwritten then 1 else 0)
    }

    static lemma NoneLinked(start: nat, unwritten: bool)
      ensures LinkedSoFar(start, unwritten, start, start, 0)
    {}

    static lemma LinkedNext(start: nat, unwritten: bool, i: nat, w: nat, count: nat)
      requires LinkedSoFar(start, unwritten, i, w, count) && w <= i
      ensures if i == start then w == i else w < i
      ensures LinkedSoFar(start, unwritten, i + 1, i, count + if i > start || unwritten then 1 else 0)
    {}

    static lemma LinkedAll(start: nat, unwritten: bool, i: nat, w: nat, count: nat, slices: nat, nodes: nat)
      requires LinkedSoFar(start, unwritten, i, w, count) && start < nodes && i <= nodes && count <= slices
      requires i == nodes || count == slices
      ensures w == start + LinkMoves(slices, unwritten, nodes - 1 - start) && (count < slices ==> w == nodes - 1)
    {}

    /** So many slices have been linked, into nodes before the i-th, since the buffer held text and packets ps. */
    ghost predicate Linking(bs: seq<array<byte>>, texts: seq<seq<byte>>, count: nat, i: nat,
                            text: seq<byte>, ps: seq<seq<byte>>, shared: set<array<byte>>)
      reads this, Repr, Shared, bs
    {
      && Inv(ri, wi) && ri <= wi <= i <= wi + 1 && wi < |cells| == |nodes| && i <= |nodes| && wnode == nodes[wi]
      && count <= |bs| == |texts| && Texts(bs) == texts && SharesOnly(shared, bs) && this !in Repr
      && Blocks() == ps + NonEmpty(texts[..count]) && Contents() == text + Flat(texts[..count])
    }

    lemma LinkingNone(bs: seq<array<byte>>)
      requires Inv(ri, wi) && ri <= wi < |cells| == |nodes| && wnode == nodes[wi]
      ensures Linking(bs, Texts(bs), 0, wi, Contents(), Blocks(), Shared)
    {
      hide Flat, NonEmpty, Stream, Packets, Space, Ordered, Memory, Linked, Stored, Inv, Texts;
      NodeOk(ri, wi, wi);
      EmptyPieces(Texts(bs)[..0]);
    }

    /** Links slices into the unwritten nodes there are, from the write node on. */
    method LinkLoop(bs: seq<array<byte>>) returns (count: nat)
      requires Inv(ri, wi) && ri <= wi < |cells| == |nodes| && wnode == nodes[wi] && forall b | b in bs :: b !in Repr
      modifies this`wnode, this`wi, this`cells, this`Shared, this`Freed, Repr
      ensures Inv(ri, wi) && old(wi) <= wi < |cells| == |nodes| && wnode == nodes[wi] && count <= |bs| == |Texts(bs)|
      ensures Blocks() == old(Blocks()) + NonEmpty(Texts(bs)[..count])
      ensures Contents() == old(Contents()) + Flat(Texts(bs)[..count])
      ensures count < |bs| ==> wi == |nodes| - 1
      ensures SharesOnly(old(Shared), bs)
      ensures wi == old(wi) + LinkMoves(|bs|, old(wnode.w) == 0, |nodes| - 1 - old(wi))
    {
      hide Flat, NonEmpty, Stream, Packets, Space, Ordered, Memory, Linked, Stored, Inv, Texts, LinkMoves, SharesOnly,
        Linking;
      NodeOk(ri, wi, wi);
      ghost var texts, i := Texts(bs), wi;
      LinkingNone(bs);
      count, i := LinkNodes(bs, texts, Contents(), Blocks(), Shared);
      LinkingDone(bs, texts, count, i, old(Contents()), old(Blocks()), old(Shared));
    }

    /** The loop: from the write node on, until the slices or the nodes run out. */
    method LinkNodes(bs: seq<array<byte>>, ghost texts: seq<seq<byte>>, ghost text: seq<byte>,
                     ghost ps: seq<seq<byte>>, ghost shared: set<array<byte>>)
      returns (count: nat, ghost i: nat)
      requires Linking(bs, texts, 0, wi, text, ps, shared) && wi < |nodes| && wnode == nodes[wi] && this !in Repr
      requires forall b | b in bs :: b !in Repr
      modifies this`wnode, this`wi, this`cells, this`Shared, this`Freed, Repr
      ensures Linking(bs, texts, count, i, text, ps, shared) && count <= |bs| && old(wi) <= wi
      ensures count < |bs| ==> wi == |nodes| - 1
      ensures wi == old(wi) + LinkMoves(|bs|, old(wnode.w) == 0, |nodes| - 1 - old(wi))
    {
      hide Flat, NonEmpty, Stream, Packets, Space, Ordered, Memory, Linked, Stored, Inv, Texts, LinkMoves,
        LinkedSoFar, SharesOnly, Linking;
      count := 0;
      var node := wnode;
      i := wi;
      ghost var start, unwritten := wi, wnode.w == 0;
      NoneLinked(start, unwritten);
      while node != null && count < |bs|
        invariant Linking(bs, texts, count, i, text, ps, shared)
        invariant count <= |bs| && wi <= i <= |nodes| && node == (if i < |nodes| then nodes[i] else null)
        invariant LinkedSoFar(start, unwritten, i, wi, count) && (i == start ==> unwritten == (node.w == 0))
        decreases |nodes| - i
      {
        LinkedNext(start, unwritten, i, wi, count);
        node, count := LinkOn(node, bs, texts, count, i, text, ps, shared);
        i := i + 1;
      }
      LinkedAll(start, unwritten, i, wi, count, |bs|, |nodes|);
    }

    lemma LinkingDone(bs: seq<array<byte>>, texts: seq<seq<byte>>, count: nat, i: nat,
                      text: seq<byte>, ps: seq<seq<byte>>, shared: set<array<byte>>)
      requires Linking(bs, texts, count, i, text, ps, shared)
      ensures Inv(ri, wi) && wi < |cells| == |nodes| && wnode == nodes[wi] && count <= |bs| == |Texts(bs)|
      ensures Blocks() == ps + NonEmpty(Texts(bs)[..count]) && Contents() == text + Flat(Texts(bs)[..count])
      ensures SharesOnly(shared, bs) && ri <= wi <= i <= wi + 1
    {
      hide Flat, NonEmpty, Stream, Packets, Space, Ordered, Memory, Linked, Stored, Inv, Texts;
    }

    /** Links the next slice of a list into node i, unless that holds data. */
    method LinkNext(node: Node, bs: seq<array<byte>>, count: nat, ghost i: nat,
                    ghost text: seq<byte>, ghost ps: seq<seq<byte>>, ghost shared: set<array<byte>>)
      returns (count': nat)
      requires Inv(ri, wi) && ri <= wi <= i <= wi + 1 && i < |cells| == |nodes| && node == nodes[i] &&
        wnode == nodes[wi]
      requires count < |bs| == |Texts(bs)| && (forall b | b in bs :: b !in Repr) && SharesOnly(shared, bs)
      requires Blocks() == ps + NonEmpty(Texts(bs)[..count]) && Contents() == text + Flat(Texts(bs)[..count])
      modifies Repr, this`cells, this`Shared, this`Freed, this`wnode, this`wi
      ensures Inv(ri, wi) && ri <= wi <= i <= wi + 1 && i < |cells| == |nodes| && wnode == nodes[wi] && old(wi) <= wi
      ensures count <= count' <= |bs| && Texts(bs) == old(Texts(bs)) && SharesOnly(shared, bs) && wi == i
      ensures Blocks() == ps + NonEmpty(Texts(bs)[..count']) && Contents() == text + Flat(Texts(bs)[..count'])
      ensures count' == count + if i > old(wi) || old(node.w) == 0 then 1 else 0
    {
      hide Flat, NonEmpty, Stream, Packets, Space, Ordered, Memory, Linked, Stored, Inv, Texts;
      NodeOk(ri, wi, i);
      AfterWrite(ri, wi, i);
      count' := count;
      if node.w == 0 {
        LinkSlice(node, bs, count, i, text, ps);
        count' := count + 1;
      }
    }

    ghost predicate SharesOnly(shared: set<array<byte>>, bs: seq<array<byte>>)
      reads this`Shared
    {
      shared <= Shared && forall a | a in Shared :: a in shared || a in bs
    }

    /** Links the next slice if node i has no data, and goes on to the node after it. */
    method LinkOn(node: Node, bs: seq<array<byte>>, ghost texts: seq<seq<byte>>, count: nat, ghost i: nat,
                  ghost text: seq<byte>, ghost ps: seq<seq<byte>>, ghost shared: set<array<byte>>)
      returns (next: Node?, count': nat)
      requires Linking(bs, texts, count, i, text, ps, shared) && i < |nodes| && node == nodes[i] && count < |bs|
      requires forall b | b in bs :: b !in Repr
      modifies Repr, this`cells, this`Shared, this`Freed, this`wnode, this`wi
      ensures Linking(bs, texts, count', i + 1, text, ps, shared) && wi == i && count' <= |bs|
      ensures next == if i + 1 < |nodes| then nodes[i + 1] else null
      ensures count' == count + if i > old(wi) || old(node.w) == 0 then 1 else 0
    {
      hide Flat, NonEmpty, Stream, Packets, Space, Ordered, Memory, Linked, Stored, Inv, Texts, SharesOnly;
      count' := LinkNext(node, bs, count, i, text, ps, shared);
      next := NodeAfter(node, i);
    }

    /** Links the next slice of a list into node i. */
    method LinkSlice(node: Node, bs: seq<array<byte>>, count: nat, ghost i: nat, ghost text: seq<byte>,
        ghost ps: seq<seq<byte>>)
      requires Inv(ri, wi) && ri <= wi <= i < |cells| == |nodes| && node == nodes[i] && node.w == 0
      requires count < |bs| == |Texts(bs)| && forall b | b in bs :: b !in Repr
      requires Blocks() == ps + NonEmpty(Texts(bs)[..count]) && Contents() == text + Flat(Texts(bs)[..count])
      modifies Repr, this`cells, this`Shared, this`Freed, this`wnode, this`wi
      ensures Inv(ri, wi) && wi == i < |cells| == |nodes| && wnode == nodes[wi] && Shared == old(Shared) + {bs[count]}
      ensures Texts(bs) == old(Texts(bs))
      ensures Blocks() == ps + NonEmpty(Texts(bs)[..count + 1]) && Contents() == text + Flat(Texts(bs)[..count + 1])
    {
      hide Flat, NonEmpty, Stream, Packets, Space, Ordered, Memory, Linked, Stored, Inv, Texts;
      FlatTo(Texts(bs), count);
      TextOf(bs, count);
      LinkHere(node, bs[count], i);
      SameTexts(bs);
    }

    static lemma TextOf(bs: seq<array<byte>>, i: nat)
      requires i < |bs|
      ensures i < |Texts(bs)| && Texts(bs)[i] == bs[i][..]
    {}

    static twostate lemma SameTexts(bs: seq<array<byte>>)
      requires forall b | b in bs :: unchanged(b)
      ensures Texts(bs) == old(Texts(bs))
    {
      forall i | 0 <= i < |bs| ensures bs[i][..] == old(bs[i][..]) {
        assert bs[i] in bs;
      }
    }

    /** Links a slice into node i and makes it the write node. */
    method LinkHere(node: Node, b: array<byte>, ghost i: nat)
      requires Inv(ri, wi) && ri <= wi <= i < |cells| == |nodes| && node == nodes[i] && node.w == 0 && b !in Repr
      modifies Repr, this`cells, this`Shared, this`Freed, this`wnode, this`wi
      ensures Inv(ri, wi) && wi == i < |cells| == |nodes| && wnode == nodes[wi] && Shared == old(Shared) + {b}
      ensures Blocks() == old(Blocks()) + NonEmpty([b[..]]) && Contents() == old(Contents()) + b[..]
    {
      hide Stream, Packets, NonEmpty, Ordered, Memory, Linked, Stored, Holds;
      NodeOk(ri, wi, i);
      LinkAt(node, b, i);
      wnode, wi := node, i;
    }

    method NodeAfter(node: Node, ghost i: nat) returns (next: Node?)
      requires Inv(ri, wi) && i < |nodes| && node == nodes[i]
      ensures next == if i + 1 < |nodes| then nodes[i + 1] else null
    {
      NodeOk(ri, wi, i);
      next := node.next;
    }

    /** Links slices into the unwritten nodes there are; count says how many slices found a node. */
    method LinkWithExistingNodes(bs: seq<array<byte>>) returns (count: nat, length: nat)
      requires Sound() && forall b | b in bs :: b !in Repr
      modifies this`linked, this`wnode, this`wi, this`rlen, this`cells, this`Shared, this`Freed, Repr
      ensures Sound() && count <= |bs| == |Texts(bs)| && linked && length == |Flat(Texts(bs)[..count])|
      ensures Blocks() == old(Blocks()) + NonEmpty(Texts(bs)[..count])
      ensures Contents() == old(Contents()) + Flat(Texts(bs)[..count])
      ensures old(wi) <= wi < |nodes| && (count < |bs| ==> wi == |nodes| - 1)
      ensures old(Shared) <= Shared && forall a | a in Shared :: a in old(Shared) || a in bs
      ensures wi == old(wi) + LinkMoves(|bs|, old(wnode.w) == 0, |old(nodes)| - 1 - old(wi)) && nodes == old(nodes)
    {
      hide Flat, NonEmpty, Stream, Packets, Space, Ordered, Memory, Linked, Stored, Texts, Sound, Inv, IsBlockSize;
      SoundOpened();
      linked := true;
      count := LinkLoop(bs);
      LenOfTexts(bs[..count]);
      assert Texts(bs[..count]) == Texts(bs)[..count];
      length := ByteSlicesLen(bs[..count]);
      rlen := rlen + length;
      SoundClosed();
    }

    twostate lemma ChainLinked(new cn: seq<Node>)
      requires old(Linked()) && cn != [] && nodes == old(nodes) + cn && |cells| == |nodes| &&
        cells[..|old(cells)|] == old(cells)
      requires Chained(cn[0], cn[|cn| - 1], cn, cells[|old(cells)|..])
      requires head == old(head) && tail == cn[|cn| - 1] && old(Repr) <= Repr && this !in Repr
      requires forall n | n in cn :: n in Repr && n !in old(Repr)
      requires forall o | o in old(nodes) && o != old(tail) :: unchanged(o)
      requires old(tail).next == cn[0] && old(tail).block == old(tail.block) && old(tail).recycle == old(tail.recycle)
      requires old(tail).r == old(tail.r) && old(tail).w == old(tail.w)
      ensures Linked()
    {
      var k := |old(nodes)|;
      forall i | 0 <= i < |nodes|
        ensures i < k ==> nodes[i] == old(nodes)[i] && cells[i] == old(cells)[i] && nodes[i] in old(Repr)
        ensures i >= k ==> nodes[i] == cn[i - k] && cells[i] == cells[k..][i - k] && nodes[i] in cn
      {
        assert i < k ==> cells[i] == cells[..k][i];
      }
      forall i | 0 <= i < k - 1 ensures unchanged(nodes[i]) {
        assert nodes[i] in old(nodes);
      }
    }

    twostate lemma ChainStored(new ds: seq<Cell>)
      requires old(Stored()) && cells == old(cells) + ds && loans == old(loans)
      requires old(Repr) <= Repr && old(Shared) <= Shared
      requires forall i | 0 <= i < |ds| :: ds[i].block in Shared && Holds(ds[i].block, 0, ds[i].bytes)
      requires forall a: array<byte> | a in old(Repr) || a in old(Shared) :: unchanged(a)
      ensures Stored()
    {
      hide Holds;
      forall i | 0 <= i < |cells| ensures Holds(cells[i].block, 0, cells[i].bytes) {
        if i < |old(cells)| {
          assert cells[i] == old(cells)[i] && old(Holds(cells[i].block, 0, cells[i].bytes));
        } else {
          assert cells[i] == ds[i - |old(cells)|];
        }
      }
    }

    /** The chain after new nodes were linked behind the write node, which was the last. */
    twostate lemma ChainSound(new ds: seq<Cell>)
      requires old(Inv(ri, wi)) && old(wi) == |old(nodes)| - 1 == |old(cells)| - 1 && Linked()
      requires cells == old(cells) + ds && loans == old(loans) && ri == old(ri) && Freed == old(Freed)
      requires old(Repr) <= Repr && old(Shared) <= Shared
      requires forall a | a in Shared :: a !in Repr
      requires forall i | 0 <= i < |ds| :: ds[i].block in Shared && Holds(ds[i].block, 0, ds[i].bytes)
      requires forall i | 0 <= i < |ds| :: ds[i].Ok() && !ds[i].recycle && ds[i].r == 0
      requires forall a: array<byte> | a in old(Repr) || a in old(Shared) :: unchanged(a)
      ensures |cells| > 0 && Inv(ri, |cells| - 1)
      ensures Blocks() == old(Blocks()) + Packets(ds) && Contents() == old(Contents()) + Stream(ds)
    {
      hide Stream, Packets, Ordered, Memory, Linked, Stored, Holds;
      AddLinked(old(cells), ri, ds);
      assert old(Repr) + (Repr - old(Repr)) == Repr;
      MemoryAddLinked(old(cells), ds, Repr - old(Repr), loans, old(Repr), old(Shared), Shared, Freed);
      ChainStored(ds);
    }

    ghost method ChainGhost(cn: seq<Node>, ds: seq<Cell>, bs: seq<array<byte>>)
      modifies this`nodes, this`cells, this`Repr, this`Shared
      ensures nodes == old(nodes) + cn && cells == old(cells) + ds
      ensures Repr == old(Repr) + (set n | n in cn) && Shared == old(Shared) + (set b | b in bs)
    {
      nodes, cells, Repr, Shared := nodes + cn, cells + ds, Repr + (set n | n in cn), Shared + (set b | b in bs);
    }

    /** Puts a chain of new nodes behind the write node, which is the last. */
    method AppendChain(h: Node, t: Node, ghost cn: seq<Node>, ghost ds: seq<Cell>, ghost bs: seq<array<byte>>)
      requires Sound() && wi == |nodes| - 1 && cn != [] && Chained(h, t, cn, ds)
      requires forall n | n in cn :: n !in Repr
      requires forall b | b in bs :: b !in Repr
      requires forall i | 0 <= i < |ds| :: ds[i].block in bs && Holds(ds[i].block, 0, ds[i].bytes)
      requires forall i | 0 <= i < |ds| :: ds[i].Ok() && !ds[i].recycle && ds[i].r == 0
      modifies this`tail, this`nodes, this`cells, this`Repr, this`Shared, wnode`next
      ensures |nodes| == |cells| == |old(nodes)| + |cn| && nodes == old(nodes) + cn && Inv(ri, |cells| - 1) &&
        t == nodes[|nodes| - 1]
      ensures Repr == old(Repr) + (set n | n in cn) && Shared == old(Shared) + (set b | b in bs) && this !in Repr
      ensures Blocks() == old(Blocks()) + Packets(ds) && Contents() == old(Contents()) + Stream(ds)
    {
      hide Stream, Packets, Space, Ordered, Memory, Linked, Stored, Holds, Chained, Inv, Sound;
      SharedApart();
      ChainFacts(h, t, cn, ds);
      wnode.next := h;
      tail := t;
      ChainGhost(cn, ds, bs);
      assert cells[..|old(cells)|] == old(cells) && cells[|old(cells)|..] == ds;
      ChainLinked(cn);
      ChainSound(ds);
    }

    /** Puts a chain of new nodes behind the write node and makes its last node the write node. */
    method AddChain(h: Node, t: Node, dataLen: nat, ghost cn: seq<Node>, ghost ds: seq<Cell>,
        ghost bs: seq<array<byte>>)
      requires Sound() && linked && wi == |nodes| - 1 && cn != [] && Chained(h, t, cn, ds) && dataLen == |Stream(ds)|
      requires forall n | n in cn :: n !in Repr
      requires forall b | b in bs :: b !in Repr
      requires forall i | 0 <= i < |ds| :: ds[i].block in bs && Holds(ds[i].block, 0, ds[i].bytes)
      requires forall i | 0 <= i < |ds| :: ds[i].Ok() && !ds[i].recycle && ds[i].r == 0
      modifies this`wnode, this`tail, this`nodes, this`cells, this`Repr, this`Shared, this`wi, this`rlen, wnode`next
      ensures Sound() && wi == |nodes| - 1
      ensures Repr == old(Repr) + (set n | n in cn) && Shared == old(Shared) + (set b | b in bs)
      ensures Blocks() == old(Blocks()) + Packets(ds) && Contents() == old(Contents()) + Stream(ds)
    {
      hide Stream, Packets, Space, Ordered, Memory, Linked, Stored, Holds, Chained;
      AppendChain(h, t, cn, ds, bs);
      wnode, wi := t, |nodes| - 1;
      rlen := rlen + dataLen;
    }

    lemma SharedApart()
      requires Sound()
      ensures forall a | a in Shared :: a !in Repr
      ensures |nodes| == |cells| > 0 && tail == nodes[|nodes| - 1] && tail.next == null && tail in nodes
      ensures this !in Repr && wnode in Repr && wi < |nodes| && wnode == nodes[wi] && Linked() && Inv(ri, wi)
      ensures forall i | 0 <= i < |nodes| :: nodes[i] in Repr
    {
      NodeOk(ri, wi, wi);
    }

    /** Links slices into new nodes behind the last node. */
    method LinkWithNewNodes(bs: seq<array<byte>>) returns (length: nat)
      requires Sound() && linked && wi == |nodes| - 1 && forall b | b in bs :: b !in Repr
      modifies this`wnode, this`tail, this`nodes, this`cells, this`Repr, this`Shared, this`wi, this`rlen, Repr
      ensures Sound() && wi == |nodes| - 1 && length == |Flat(Texts(bs))|
      ensures Blocks() == old(Blocks()) + NonEmpty(Texts(bs)) && Contents() == old(Contents()) + Flat(Texts(bs))
      ensures old(Repr) <= Repr && fresh(Repr - old(Repr))
      ensures old(Shared) <= Shared && forall a | a in Shared :: a in old(Shared) || a in bs
      ensures Flat(Texts(bs)) == [] ==> wi == old(wi)
    {
      hide Flat, NonEmpty, Stream, Packets, Space, Ordered, Memory, Linked, Stored, Holds, Chained, Inv, Sound,
        Texts, LinkedCells;
      LinkedCellsText(bs);
      LenOfTexts(bs);
      SharedApart();
      var h, t;
      ghost var cn;
      h, t, length, cn := BuildChain(bs);
      ghost var ds := LinkedCells(bs);
      ChainEnd(h, t, cn, ds);
      if length == 0 {
        NoText(bs);
        return;
      }
      SomeText(bs);
      AddChain(h, t, length, cn, ds, bs);
    }

    static lemma NoText(bs: seq<array<byte>>)
      ensures Flat(Texts(bs)) == [] ==> NonEmpty(Texts(bs)) == []
    {
      FlatNonEmpty(Texts(bs));
    }

    static lemma SomeText(bs: seq<array<byte>>)
      requires Stream(LinkedCells(bs)) != []
      ensures LinkedCells(bs) != []
    {}

    /** Links the slices, which become packets of their own. */
    method LinkFrom(bs: seq<array<byte>>) returns (length: nat)
      requires Valid() && forall b | b in bs :: b !in Repr
      modifies this`linked, this`wnode, this`tail, this`nodes, this`cells, this`Repr, this`Shared, this`Freed,
        this`wi, this`rlen, Repr
      ensures Valid() && length == |Flat(Texts(bs))|
      ensures Blocks() == old(Blocks()) + NonEmpty(Texts(bs)) && Contents() == old(Contents()) + Flat(Texts(bs))
      ensures old(Repr) <= Repr && fresh(Repr - old(Repr))
      ensures old(Shared) <= Shared && forall a | a in Shared :: a in old(Shared) || a in bs
      ensures old(wi) < |old(nodes)|
      ensures length == 0 ==> wi == old(wi) + LinkMoves(|bs|, old(wnode.w) == 0, |old(nodes)| - 1 - old(wi))
    {
      hide Flat, NonEmpty, Stream, Packets, Space, Ordered, Memory, Linked, Stored, Inv, Sound, Texts;
      SoundNow();
      var count;
      count, length := LinkWithExistingNodes(bs);
      ReprApart();
      TextsSplit(bs, count);
      if count < |bs| {
        var more := LinkWithNewNodes(bs[count..]);
        length := length + more;
      }
    }

    lemma ReprApart()
      requires Sound()
      ensures this !in Repr
    {}

    static lemma TextsSplit(bs: seq<array<byte>>, i: nat)
      requires i <= |bs|
      ensures Flat(Texts(bs)) == Flat(Texts(bs)[..i]) + Flat(Texts(bs[i..]))
      ensures NonEmpty(Texts(bs)) == NonEmpty(Texts(bs)[..i]) + NonEmpty(Texts(bs[i..]))
      ensures i == |bs| ==> Texts(bs)[..i] == Texts(bs)
    {
      hide Flat, NonEmpty;
      assert Texts(bs) == Texts(bs)[..i] + Texts(bs[i..]);
      FlatConcat(Texts(bs)[..i], Texts(bs[i..]));
      NonEmptyConcat(Texts(bs)[..i], Texts(bs[i..]));
    }

    /** How far the write node moves in a write that appends nothing. */
    ghost function WriteMoves(safeWrite: bool, slices: nat): nat
      requires Valid()
      reads this, Repr, Shared
    {
      WriteNode();
      if !safeWrite then LinkMoves(slices, wnode.w == 0, |nodes| - 1 - wi) else if wnode.IsFull() then 1 else 0
    }

    /** Appends the slices, copied into the buffer or linked into it. */
    method Writev(safeWrite: bool, bs: seq<array<byte>>) returns (n: nat)
      requires Valid() && forall b | b in bs :: b !in Repr
      modifies this`linked, this`wnode, this`tail, this`nodes, this`cells, this`Repr, this`Shared, this`Freed,
        this`wi, this`rlen, this`wlen, Repr
      ensures Valid() && n <= |Flat(Texts(bs))| && Contents() == old(Contents()) + Flat(Texts(bs))[..n]
      ensures !safeWrite ==> n == |Flat(Texts(bs))| && Blocks() == old(Blocks()) + NonEmpty(Texts(bs))
      ensures !filled ==> n >= Least(|Flat(Texts(bs))|, MAX_FILL_LEN)
      ensures safeWrite ==> n == Least(|Flat(Texts(bs))|, old(FillRoom(|Flat(Texts(bs))|))) && Shared == old(Shared)
      ensures old(Repr) <= Repr && fresh(Repr - old(Repr))
      ensures old(Shared) <= Shared && forall a | a in Shared :: a in old(Shared) || a in bs
      ensures n == 0 ==> wi == old(wi) + old(WriteMoves(safeWrite, |bs|))
    {
      hide Flat, NonEmpty, Stream, Packets, Valid, Texts;
      Lengths();
      if safeWrite {
        n := CopyFrom(bs);
      } else {
        n := LinkFrom(bs);
        assert Flat(Texts(bs))[..n] == Flat(Texts(bs));
      }
    }

    /** Appends the slices unless they would take the buffer over its limit; no positive limit is no limit. */
    method WritevLimited(safeWrite: bool, limit: int, bs: seq<array<byte>>) returns (n: nat, err: Error)
      requires Valid() && forall b | b in bs :: b !in Repr
      modifies this`linked, this`wnode, this`tail, this`nodes, this`cells, this`Repr, this`Shared, this`Freed,
        this`wi, this`rlen, this`wlen, Repr
      ensures Valid() && n <= |Flat(Texts(bs))| && Contents() == old(Contents()) + Flat(Texts(bs))[..n]
      ensures err == if 0 < limit && Flat(Texts(bs)) != [] &&
        limit < |old(Contents())| + |Flat(Texts(bs))| then ErrBufferFull else NoError
      ensures err != NoError ==> n == 0
      ensures err == NoError && !safeWrite ==> n == |Flat(Texts(bs))|
      ensures err == NoError && !filled ==> n >= Least(|Flat(Texts(bs))|, MAX_FILL_LEN)
      ensures err == NoError && safeWrite ==> n == Least(|Flat(Texts(bs))|, old(FillRoom(|Flat(Texts(bs))|)))
      ensures safeWrite ==> Shared == old(Shared)
      ensures 0 < limit && |old(Contents())| <= limit ==> |Contents()| <= limit
      ensures old(Repr) <= Repr && fresh(Repr - old(Repr))
      ensures n == 0 ==> wi == old(wi) + if err != NoError || (0 < limit && Flat(Texts(bs)) == []) then 0
                                         else old(WriteMoves(safeWrite, |bs|))
    {
      hide Flat, NonEmpty, Stream, Packets, Valid, Texts;
      n, err := 0, NoError;
      LenOfTexts(bs);
      Lengths();
      if limit <= 0 {
        n := Writev(safeWrite, bs);
        return;
      }
      var length := ByteSlicesLen(bs);
      if length == 0 { return; }
      if length > limit - rlen { return 0, ErrBufferFull; }
      n := Writev(safeWrite, bs);
    }

    /** Peek and then Skip does what Next does. */
    method PeekThenSkip(n: int) returns (s: Slice, err: Error)
      requires Valid()
      modifies this`loans, this`Shared, this`cells, this`rlen, this`rnode, this`ri, Repr
      ensures Valid() && old(loans) <= loans && old(Shared) <= Shared && fresh(Shared - old(Shared))
      ensures err == if n < 0 then ErrInvalidParam else if |old(Contents())| < n then ErrNoEnoughData else NoError
      ensures Contents() == if err == NoError then old(Contents())[n..] else old(Contents())
      ensures err == NoError ==> Lent(s, old(Contents())[..n])
      ensures n == 0 || err != NoError ==> ri == old(ri)
      ensures err == NoError && n > 0 ==>
        old(Blocks()) != [] && s.arr != null && (fresh(s.arr) <==> |old(Blocks())[0]| < n)
    {
      hide Stream, Valid;
      Lengths();
      s, err := Peek(n);
      if err == NoError {
        err := Skip(n);
        if n > 0 { StillLent(s, old(Contents())[..n]); }
      }
    }

    /** The packets are the unread bytes, in pieces. */
    lemma BlocksFlat()
      ensures Flat(Blocks()) == Contents() && forall p | p in Blocks() :: p != []
    {
      FlatNonEmpty(Datas(cells));
    }

    /** Zero-copy stability: in every sound state each lent slice still holds the bytes it held when it was lent. */
    lemma StillLent(s: Slice, bytes: seq<byte>)
      requires Valid() && s.arr != null && Loan(s.arr, s.lo, bytes) in loans && s.hi == s.lo + |bytes|
      ensures Lent(s, bytes) && s.arr !in Freed
    {
      assert Holds(s.arr, s.lo, bytes);
    }
  }

  lemma ChainFacts(h: Node?, t: Node?, cn: seq<Node>, ds: seq<Cell>)
    requires Chained(h, t, cn, ds) && cn != []
    ensures h == cn[0] && t == cn[|cn| - 1] && |cn| == |ds|
  {}

  /** The read and the write node of an empty buffer part when its first fill fails or finds nothing to read. */
  method EmptyFirstFill(n: int, fail: bool) returns (b: Buffer)
    ensures b.Valid() && b.Contents() == [] && b.rnode != b.wnode
  {
    hide Buffer.Valid, Buffer.Contents;
    b := new Buffer();
    b.Lengths();
    var vec, actual, err := b.Fill(n, [], fail);
    b.Apart();
  }

  /** They part as well when nothing is copied into a buffer that was never filled. */
  method EmptyFirstWrite() returns (b: Buffer)
    ensures b.Valid() && !b.filled && b.Contents() == [] && b.rnode != b.wnode
  {
    hide Buffer.Valid, Buffer.Contents;
    b := new Buffer();
    b.Lengths();
    var n := b.CopyFrom([]);
    assert Texts([]) == [];
    b.Apart();
  }

  // ---- a fill that gets fewer bytes of room than it asks for ----

  /** One dump node, two full nodes, one with one byte and an unwritten one. */
  ghost predicate Step1(b: Buffer)
    reads b, b.Repr, b.Shared
  {
    && b.Valid() && |b.cells| == 5 && b.wi == 3 && b.cells[3].w == 1 && b.auto && b.nodeBlockSize == BLOCK_SIZE
    && |b.Contents()| == 8193
    && forall i | 0 <= i < 5 :: |b.cells[i].bytes| == if i == 0 then 0 else BLOCK_SIZE
  }

  /** Where the write node stands is forced by the room that is left. */
  lemma WriteNodeAt(b: Buffer)
    requires b.Sound() && |b.cells| == 5 && Space(b.cells, b.wi).1 == 8191
    requires forall i | 0 <= i < 5 :: |b.cells[i].bytes| == if i == 0 then 0 else BLOCK_SIZE
    ensures b.wi == 3 && b.cells[3].w == 1
  {
    b.WriteState();
    b.AllUnwritten();
    hide Room, Buffer.Sound;
    RoomExactly(b.cells, b.wi, BLOCK_SIZE);
  }

  method FillSome() returns (b: Buffer)
    ensures Step1(b) && fresh(b) && fresh(b.Repr)
  {
    hide Buffer.Valid, Buffer.FillRoom, Buffer.FillNodes, Space, Buffer.Contents, TotalLen, PrivateWindows, Grown,
      Buffer.Sound;
    b := new Buffer();
    b.Lengths();
    b.SoundNow();
    b.FirstRoom();
    var zeros: seq<byte> := seq(8193, _ => 0);
    var vec, actual, err := b.Fill(16384, zeros, false);
    assert zeros[..8193] == zeros;
    b.SoundNow();
    FiveSizes(b.cells);
    WriteNodeAt(b);
  }

  lemma FiveSizes(cs: seq<Cell>)
    requires Grown([Cell(null, [], 0, 0, false)], cs, BLOCK_SIZE)
    ensures forall i | 0 <= i < |cs| :: |cs[i].bytes| == if i == 0 then 0 else BLOCK_SIZE
  {}

  /** After all is read, the read node is the one that held the last byte. */
  lemma ReadNodeAt(b: Buffer, cs: seq<Cell>)
    requires b.Valid() && b.Contents() == [] && OnlyRead(cs, b.cells) && |cs| == 5 && b.wi == 3 && cs[3].w == 1
    ensures b.ri == 3 && b.cells[3].w == 1 && b.cells[3].r == 1
  {
    EmptyPositions(b.cells, b.ri, b.wi);
  }

  /** One empty node and one unwritten one of the old size, while the block size has grown. */
  ghost predicate Step2(b: Buffer)
    reads b, b.Repr, b.Shared
  {
    && b.Valid() && b.Contents() == [] && b.wi == 0 && |b.cells| == 2 && b.nodeBlockSize == 16384
    && b.cells[0].w == 0 == b.cells[1].w && |b.cells[0].bytes| == BLOCK_SIZE == |b.cells[1].bytes|
  }

  /** The same after all was read. */
  ghost predicate Step1Read(b: Buffer)
    reads b, b.Repr, b.Shared
  {
    && b.Valid() && |b.cells| == 5 && b.wi == 3 == b.ri && b.cells[3].w == 1 && b.auto && b.nodeBlockSize == BLOCK_SIZE
    && b.Contents() == [] && b.cells[3].recycle
    && forall i | 0 <= i < 5 :: |b.cells[i].bytes| == if i == 0 then 0 else BLOCK_SIZE
  }

  method SkipAll(b: Buffer)
    requires Step1(b)
    modifies b, b.Repr
    ensures Step1Read(b) && b.Repr == old(b.Repr)
  {
    hide Buffer.Valid, Buffer.Contents;
    b.Lengths();
    ghost var cs := b.cells;
    var err := b.Skip(8193);
    ReadNodeAt(b, cs);
    Owned3(b);
  }

  method ReleaseAll(b: Buffer)
    requires Step1Read(b)
    modifies b, b.Repr
    ensures Step2(b) && old(b.Repr) <= b.Repr && fresh(b.Repr - old(b.Repr))
  {
    hide Buffer.Valid, Buffer.Contents, CapSum, OwnBlocks;
    ghost var cs := b.cells;
    Four(cs);
    b.Release(false);
    assert cs[..3 + 1] == cs[..4];
    SizeIs(b);
    b.UnwrittenAfter(1);
  }

  lemma Owned3(b: Buffer)
    requires b.Valid() && |b.cells| == 5 && b.cells[3].w == 1 && |b.cells[3].bytes| == BLOCK_SIZE
    ensures b.cells[3].recycle
  {}

  lemma Four(cs: seq<Cell>)
    requires |cs| == 5 && forall i | 0 <= i < 5 :: |cs[i].bytes| == if i == 0 then 0 else BLOCK_SIZE
    ensures CapSum(cs[..4]) == 3 * BLOCK_SIZE
  {
    CapSumTo(cs, 0);
    CapSumTo(cs, 1);
    CapSumTo(cs, 2);
    CapSumTo(cs, 3);
    assert cs[..0] == [];
  }

  lemma SizeIs(b: Buffer)
    requires b.Valid() && 3 * BLOCK_SIZE <= b.nodeBlockSize < 6 * BLOCK_SIZE
    ensures b.nodeBlockSize == 16384
  {}

  /**
   A fill can offer its reader fewer bytes than it was asked for: after a release that raised the block size, smaller
   nodes that are still unwritten count as nodes of the new size. Asked for 8193 bytes, this one offers 8192.
   */
  method ShortFill() returns (b: Buffer, vec: seq<Slice>, err: Error)
    ensures b.Valid() && err == NoError && TotalLen(vec) == 8192 < Buffer.Capped(8193)
  {
    hide Buffer.Valid, Buffer.FillRoom, Buffer.Contents;
    b := FillSome();
    SkipAll(b);
    ReleaseAll(b);
    b.Lengths();
    SmallRoom(b);
    var actual;
    vec, actual, err := b.Fill(8193, [], false);
  }

  lemma SmallRoom(b: Buffer)
    requires Step2(b)
    ensures b.FillRoom(8193) == 8192
  {
    b.WriteState();
    RoomExactly(b.cells, 0, BLOCK_SIZE);
  }

  /** Skipping two packets of one leaves a buffer that has lost its packet and still counts its bytes. */
  method SkipOneTooMany(p: array<byte>) returns (b: Buffer, err: Error)
    requires p.Length > 0
    ensures err == ErrNoEnoughData && !b.Valid() && b.Blocks() == [] && b.rlen == p.Length
  {
    hide Buffer.Valid, Buffer.Blocks, Buffer.Contents;
    b := new Buffer();
    b.Lengths();
    var n := b.Writev(false, [p]);
    OneText(p);
    err := b.SkipBlocks(2);
  }

  lemma OneText(p: array<byte>)
    ensures Texts([p]) == [p[..]] && Flat(Texts([p])) == p[..]
    ensures p.Length > 0 ==> NonEmpty(Texts([p])) == [p[..]]
  {
    Single(p[..]);
  }
}
