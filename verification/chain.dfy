/**
 The value of a linked buffer's chain: one cell for each node, in order, with a read position k and a
 write position m. Everything here is about values; the class Buffer keeps its nodes equal to such a chain.
 */
module Chain {
  import opened Bytes

  /** A node's fields, with the bytes its block holds. A node without a block has none. */
  datatype Cell = Cell(block: array?<byte>, bytes: seq<byte>, r: nat, w: nat, recycle: bool) {
    /** A block the node does not own is a caller's memory and is always full. */
    ghost predicate Ok() {
      && |bytes| == (if block == null then 0 else block.Length)
      && r <= w <= |bytes|
      && (if recycle then block != null else w == |bytes|)
    }

    /** The bytes written and not yet read. */
    ghost function Data(): seq<byte> {
      if r <= w <= |bytes| then bytes[r..w] else []
    }

    /** The memory that may still be written. */
    ghost function Window(): seq<byte> {
      if w <= |bytes| then bytes[w..] else []
    }
  }

  /** Memory handed to a caller without copying, with the bytes it held then. */
  datatype Loan = Loan(arr: array<byte>, lo: nat, bytes: seq<byte>)

  ghost function Datas(cs: seq<Cell>): (ds: seq<seq<byte>>) {
    seq(|cs|, i requires 0 <= i < |cs| => cs[i].Data())
  }

  ghost function Windows(cs: seq<Cell>, m: nat): (ws: seq<seq<byte>>)
    requires m <= |cs|
  {
    seq(|cs| - m, i requires 0 <= i < |cs| - m => cs[m + i].Window())
  }

  /** The unread bytes, as a stream and as packets; and the free memory from position m on. */
  ghost function Stream(cs: seq<Cell>): seq<byte> { Flat(Datas(cs)) }

  ghost function Packets(cs: seq<Cell>): seq<seq<byte>> { NonEmpty(Datas(cs)) }

  ghost function Room(cs: seq<Cell>, m: nat): seq<byte>
    requires m <= |cs|
  {
    Flat(Windows(cs, m))
  }

  /** Whether all memory is the chain's own, and how much of it is free. */
  ghost function Space(cs: seq<Cell>, m: nat): (bool, nat)
    requires m <= |cs|
  {
    (forall i | 0 <= i < |cs| :: cs[i].recycle || cs[i].block == null, |Room(cs, m)|)
  }

  /**
   Cells before the read position are read out, cells after it are unread, and cells after the write
   position are owned, nonempty and unwritten.
   */
  ghost predicate Ordered(cs: seq<Cell>, k: nat, m: nat) {
    && k <= m < |cs|
    && (forall i | 0 <= i < |cs| :: cs[i].Ok())
    && (forall i | 0 <= i < k :: cs[i].r == cs[i].w)
    && (forall i | k < i < |cs| :: cs[i].r == 0)
    && (forall i | m < i < |cs| :: cs[i].w == 0 && cs[i].recycle && |cs[i].bytes| > 0)
  }

  /** Owned blocks were freed once each. */
  ghost predicate Once(freed: multiset<array<byte>>, own: set<object>) {
    forall a | a in freed :: a in own && freed[a] == 1
  }

  /**
   Every owned block has one owner and has not been freed, linked memory is never owned, and a loan's
   memory is not freed and lies below the write offset of the node that owns it.
   */
  ghost predicate Memory(cs: seq<Cell>, loans: set<Loan>, own: set<object>, shared: set<array<byte>>,
      freed: multiset<array<byte>>) {
    && (forall a | a in shared :: a !in own)
    && Once(freed, own)
    && (forall i | 0 <= i < |cs| && cs[i].block != null ::
          if cs[i].recycle then cs[i].block in own && cs[i].block !in freed else cs[i].block in shared)
    && (forall i, j | 0 <= i < j < |cs| && cs[i].recycle && cs[j].recycle :: cs[i].block != cs[j].block)
    && (forall l | l in loans :: l.bytes != [] && l.arr !in freed && (l.arr in own || l.arr in shared))
    && (forall l, i | l in loans && 0 <= i < |cs| && cs[i].recycle && cs[i].block == l.arr ::
          l.lo + |l.bytes| <= cs[i].w)
  }

  // ---- reading ----

  ghost function ReadCell(c: Cell, num: nat): Cell { c.(r := c.r + num) }

  lemma DatasUpdate(cs: seq<Cell>, k: nat, c: Cell)
    requires k < |cs|
    ensures Datas(cs[k := c]) == Datas(cs)[k := c.Data()]
  {}

  lemma DatasPrefix(cs: seq<Cell>, k: nat, m: nat)
    requires Ordered(cs, k, m)
    ensures |Datas(cs)| == |cs|
    ensures AllEmpty(Datas(cs)[..k]) && AllEmpty(Datas(cs)[m + 1..])
    ensures cs[m].w == 0 ==> AllEmpty(Datas(cs)[m..])
  {}

  /** Reading num bytes at the read position removes the first num bytes of the stream. */
  lemma ReadStep(cs: seq<Cell>, k: nat, m: nat, num: nat)
    requires Ordered(cs, k, m) && num <= cs[k].w - cs[k].r
    ensures Ordered(cs[k := ReadCell(cs[k], num)], k, m)
    ensures num <= |Stream(cs)| && Stream(cs[k := ReadCell(cs[k], num)]) == Stream(cs)[num..]
    ensures cs[k].Data()[..num] == Stream(cs)[..num]
  {
    hide Flat;
    DatasPrefix(cs, k, m);
    DatasUpdate(cs, k, ReadCell(cs[k], num));
    FlatConsume(Datas(cs), k, num);
    assert ReadCell(cs[k], num).Data() == cs[k].Data()[num..];
  }

  lemma ReadSpace(cs: seq<Cell>, k: nat, m: nat, num: nat)
    requires k < |cs| && m <= |cs|
    ensures Space(cs[k := ReadCell(cs[k], num)], m) == Space(cs, m)
  {
    hide Flat;
    var ds := cs[k := ReadCell(cs[k], num)];
    assert forall i | 0 <= i < |cs| :: ds[i].Window() == cs[i].Window();
    assert Windows(ds, m) == Windows(cs, m);
    assert forall i | 0 <= i < |cs| :: ds[i].recycle == cs[i].recycle && ds[i].block == cs[i].block;
  }

  /** The first packet is the data of the first nonempty cell; reading all of it removes the packet. */
  lemma ReadPacket(cs: seq<Cell>, k: nat, m: nat)
    requires Ordered(cs, k, m) && cs[k].r < cs[k].w
    ensures cs[k].w - cs[k].r <= |Stream(cs)| && |Packets(cs)| > 0
    ensures Packets(cs)[0] == cs[k].Data() == Stream(cs)[..cs[k].w - cs[k].r]
    ensures Packets(cs[k := ReadCell(cs[k], cs[k].w - cs[k].r)]) == Packets(cs)[1..]
  {
    hide NonEmpty;
    var c := ReadCell(cs[k], cs[k].w - cs[k].r);
    DatasPrefix(cs, k, m);
    DatasUpdate(cs, k, c);
    NonEmptyConsume(Datas(cs), k);
    ReadStep(cs, k, m, cs[k].w - cs[k].r);
    assert c.Data() == [];
  }

  lemma NoPackets(cs: seq<Cell>)
    ensures Packets(cs) == [] <==> Stream(cs) == []
  {
    FlatNonEmpty(Datas(cs));
  }

  /** While bytes are left, the read position can move past an empty cell without passing the write position. */
  lemma ReadOn(cs: seq<Cell>, k: nat, m: nat)
    requires Ordered(cs, k, m) && cs[k].r == cs[k].w && Stream(cs) != []
    ensures k < m && Ordered(cs, k + 1, m)
  {
    hide Flat;
    DatasPrefix(cs, k, m);
    FlatHasPiece(Datas(cs), k);
  }

  /** An empty chain has its two positions on one node, or nothing written at the write position. */
  lemma EmptyPositions(cs: seq<Cell>, k: nat, m: nat)
    requires Ordered(cs, k, m) && Stream(cs) == []
    ensures k == m || cs[m].w == 0
    ensures forall i | 0 <= i < |cs| :: cs[i].r == cs[i].w
  {
    hide Flat;
    forall i | 0 <= i < |cs| ensures cs[i].r == cs[i].w {
      FlatAt(Datas(cs), i);
      assert |Datas(cs)[i]| == 0;
    }
  }

  /** The stream of a prefix of the chain is a prefix of the stream, longer by each cell's data. */
  lemma StreamTo(cs: seq<Cell>, i: nat)
    requires i <= |cs|
    ensures |Stream(cs[..i])| <= |Stream(cs)| && Stream(cs[..i]) == Stream(cs)[..|Stream(cs[..i])|]
    ensures i == |cs| ==> Stream(cs[..i]) == Stream(cs)
    ensures i < |cs| ==> Stream(cs[..i + 1]) == Stream(cs[..i]) + cs[i].Data()
  {
    hide Flat;
    assert cs == cs[..i] + cs[i..];
    assert Datas(cs) == Datas(cs[..i]) + Datas(cs[i..]);
    FlatConcat(Datas(cs[..i]), Datas(cs[i..]));
    if i < |cs| {
      assert Datas(cs[..i + 1]) == Datas(cs[..i]) + [cs[i].Data()];
      FlatConcat(Datas(cs[..i]), [cs[i].Data()]);
      Single(cs[i].Data());
    }
    if i == |cs| { assert cs[..i] == cs; }
  }

  /** The first bytes of cell i stand in the stream right after all that comes before the cell. */
  lemma PieceAt(cs: seq<Cell>, i: nat, num: nat)
    requires i < |cs| && num <= |cs[i].Data()|
    ensures |Stream(cs[..i])| + num <= |Stream(cs)|
    ensures cs[i].Data()[..num] == Stream(cs)[|Stream(cs[..i])|..][..num]
    ensures |Stream(cs[..i + 1])| == |Stream(cs[..i])| + |cs[i].Data()|
  {
    hide Stream;
    StreamTo(cs, i);
    StreamTo(cs, i + 1);
  }

  /** The packets of a prefix of the chain are a prefix of the packets. */
  lemma PacketsTo(cs: seq<Cell>, i: nat)
    requires i <= |cs|
    ensures |Packets(cs[..i])| <= |Packets(cs)| && Packets(cs[..i]) == Packets(cs)[..|Packets(cs[..i])|]
    ensures |Stream(cs[..i])| == |Stream(cs)| ==> Packets(cs[..i]) == Packets(cs)
    ensures i < |cs| && cs[i].Data() == [] ==> Packets(cs[..i + 1]) == Packets(cs[..i])
    ensures i < |cs| && cs[i].Data() != [] ==> Packets(cs[..i + 1]) == Packets(cs[..i]) + [cs[i].Data()]
  {
    hide Flat, NonEmpty;
    assert cs == cs[..i] + cs[i..];
    assert Datas(cs) == Datas(cs[..i]) + Datas(cs[i..]);
    FlatConcat(Datas(cs[..i]), Datas(cs[i..]));
    NonEmptyConcat(Datas(cs[..i]), Datas(cs[i..]));
    NoPackets(cs[i..]);
    if i < |cs| {
      assert Datas(cs[..i + 1]) == Datas(cs[..i]) + [cs[i].Data()];
      NonEmptyConcat(Datas(cs[..i]), [cs[i].Data()]);
      Single(cs[i].Data());
    }
  }

  /** Past an empty cell the read position moves on, up to the write position. */
  lemma SkipEmpty(cs: seq<Cell>, k: nat, m: nat)
    requires Ordered(cs, k, m) && k < m && cs[k].r == cs[k].w
    ensures Ordered(cs, k + 1, m)
  {}

  lemma AllRead(cs: seq<Cell>)
    requires forall i | 0 <= i < |cs| :: cs[i].r == cs[i].w
    ensures Stream(cs) == [] && Packets(cs) == []
  {
    EmptyPieces(Datas(cs));
  }

  lemma NothingBefore(cs: seq<Cell>, k: nat, m: nat)
    requires Ordered(cs, k, m)
    ensures Stream(cs[..k]) == [] && Packets(cs[..k]) == []
  {
    EmptyPieces(Datas(cs[..k]));
  }

  lemma MemoryRead(cs: seq<Cell>, k: nat, num: nat, loans: set<Loan>, own: set<object>, shared: set<array<byte>>,
      freed: multiset<array<byte>>)
    requires k < |cs| && Memory(cs, loans, own, shared, freed)
    ensures Memory(cs[k := ReadCell(cs[k], num)], loans, own, shared, freed)
  {}

  // ---- lending ----

  /** Bytes below a node's write offset may be lent. */
  lemma Lend(cs: seq<Cell>, k: nat, m: nat, i: nat, l: Loan, loans: set<Loan>, own: set<object>,
      shared: set<array<byte>>, freed: multiset<array<byte>>)
    requires Ordered(cs, k, m) && Memory(cs, loans, own, shared, freed)
    requires i < |cs| && l.bytes != [] && l.arr == cs[i].block && l.lo + |l.bytes| <= cs[i].w
    ensures Memory(cs, loans + {l}, own, shared, freed)
  {}

  /** Memory the buffer does not own may be lent. */
  lemma LendCopy(cs: seq<Cell>, l: Loan, loans: set<Loan>, own: set<object>, shared: set<array<byte>>,
      freed: multiset<array<byte>>)
    requires Memory(cs, loans, own, shared, freed) && l.arr !in own && l.bytes != []
    ensures Memory(cs, loans + {l}, own, shared + {l.arr}, freed)
  {}

  // ---- writing ----

  ghost function WroteCell(c: Cell, num: nat): Cell { c.(w := c.w + num) }

  lemma WindowsUpdate(cs: seq<Cell>, m: nat, i: nat, c: Cell)
    requires m <= i < |cs|
    ensures Windows(cs[i := c], m) == Windows(cs, m)[i - m := c.Window()]
  {}

  lemma RoomAt(cs: seq<Cell>, m: nat)
    requires m < |cs|
    ensures Room(cs, m) == cs[m].Window() + Room(cs, m + 1)
  {
    assert Windows(cs, m)[1..] == Windows(cs, m + 1);
  }

  /** The room of a partly written node and unwritten ones of one size after it. */
  lemma {:induction false} RoomExactly(cs: seq<Cell>, m: nat, size: nat)
    requires m < |cs| && cs[m].w <= |cs[m].bytes|
    requires forall i | m < i < |cs| :: cs[i].w == 0 && |cs[i].bytes| == size
    ensures |Room(cs, m)| == |cs[m].bytes| - cs[m].w + (|cs| - m - 1) * size
    decreases |cs| - m
  {
    hide Room;
    RoomAt(cs, m);
    if m + 1 < |cs| {
      RoomExactly(cs, m + 1, size);
      assert (|cs| - m - 1) * size == size + (|cs| - m - 2) * size;
    } else {
      NoWindow(cs);
    }
  }

  lemma NoWindow(cs: seq<Cell>)
    ensures Room(cs, |cs|) == []
  {
    assert Windows(cs, |cs|) == [];
  }

  lemma {:induction false} RoomAtLeast(cs: seq<Cell>, m: nat, size: nat)
    requires m < |cs| && cs[m].w <= |cs[m].bytes|
    requires forall i | m < i < |cs| :: cs[i].w == 0 && |cs[i].bytes| >= size
    ensures |Room(cs, m)| >= |cs[m].bytes| - cs[m].w + (|cs| - m - 1) * size
    decreases |cs| - m
  {
    hide Room;
    RoomAt(cs, m);
    if m + 1 < |cs| {
      RoomAtLeast(cs, m + 1, size);
      assert (|cs| - m - 1) * size == size + (|cs| - m - 2) * size;
    }
  }

  /** Publishing num bytes at the write position appends the memory found there to the stream. */
  lemma WriteStep(cs: seq<Cell>, k: nat, m: nat, num: nat)
    requires Ordered(cs, k, m) && num <= |cs[m].bytes| - cs[m].w
    ensures Ordered(cs[m := WroteCell(cs[m], num)], k, m)
    ensures num <= |Room(cs, m)|
    ensures Stream(cs[m := WroteCell(cs[m], num)]) == Stream(cs) + Room(cs, m)[..num]
    ensures Room(cs[m := WroteCell(cs[m], num)], m) == Room(cs, m)[num..]
  {
    hide Flat;
    var c := WroteCell(cs[m], num);
    var ds := cs[m := c];
    DatasPrefix(cs, k, m);
    DatasUpdate(cs, m, c);
    FlatExtend(Datas(cs), m, cs[m].Window()[..num]);
    assert c.Data() == cs[m].Data() + cs[m].Window()[..num];
    RoomAt(cs, m);
    RoomAt(ds, m);
    assert Windows(ds, m + 1) == Windows(cs, m + 1);
    assert c.Window() == cs[m].Window()[num..];
  }

  lemma WriteSpace(cs: seq<Cell>, k: nat, m: nat, num: nat)
    requires Ordered(cs, k, m) && num <= |cs[m].bytes| - cs[m].w
    ensures num <= Space(cs, m).1
    ensures Space(cs[m := WroteCell(cs[m], num)], m) == (Space(cs, m).0, Space(cs, m).1 - num)
  {
    hide Stream;
    WriteStep(cs, k, m, num);
    var ds := cs[m := WroteCell(cs[m], num)];
    assert forall i | 0 <= i < |cs| :: ds[i].recycle == cs[i].recycle && ds[i].block == cs[i].block;
  }

  /** Past a full cell the free memory is that of the cells after it. */
  lemma WriteOn(cs: seq<Cell>, k: nat, m: nat)
    requires Ordered(cs, k, m) && cs[m].w == |cs[m].bytes| && m + 1 < |cs|
    ensures Ordered(cs, k, m + 1) && Room(cs, m) == Room(cs, m + 1) && Space(cs, m) == Space(cs, m + 1)
    ensures cs[m + 1].w == 0 < |cs[m + 1].bytes|
  {
    RoomAt(cs, m);
  }

  lemma NoRoomLeft(cs: seq<Cell>)
    requires |cs| > 0 && cs[|cs| - 1].w == |cs[|cs| - 1].bytes|
    ensures Room(cs, |cs| - 1) == []
  {
    RoomAt(cs, |cs| - 1);
  }

  /** If the write node is not the last, the last node's memory is free. */
  lemma TailRoom(cs: seq<Cell>, k: nat, m: nat)
    requires Ordered(cs, k, m) && m < |cs| - 1
    ensures |cs[|cs| - 1].bytes| <= |Room(cs, m)|
  {
    hide Flat;
    var ws := Windows(cs, m);
    FlatAt(ws, |ws| - 1);
    assert ws[|ws| - 1] == cs[|cs| - 1].Window();
  }

  lemma MemoryWrote(cs: seq<Cell>, k: nat, num: nat, loans: set<Loan>, own: set<object>, shared: set<array<byte>>,
      freed: multiset<array<byte>>)
    requires k < |cs| && Memory(cs, loans, own, shared, freed)
    ensures Memory(cs[k := WroteCell(cs[k], num)], loans, own, shared, freed)
  {}

  /** A new owned node at the tail adds room and nothing else. */
  lemma AddCell(cs: seq<Cell>, k: nat, m: nat, c: Cell)
    requires Ordered(cs, k, m) && c.Ok() && c.r == c.w == 0 && c.recycle && |c.bytes| > 0
    ensures Ordered(cs + [c], k, m)
    ensures Stream(cs + [c]) == Stream(cs) && Packets(cs + [c]) == Packets(cs)
    ensures Room(cs + [c], m) == Room(cs, m) + c.bytes
    ensures Space(cs + [c], m) == (Space(cs, m).0, Space(cs, m).1 + |c.bytes|)
  {
    hide Flat, NonEmpty;
    assert Datas(cs + [c]) == Datas(cs) + [[]];
    FlatConcat(Datas(cs), [[]]);
    NonEmptyConcat(Datas(cs), [[]]);
    Single([]);
    assert c.Window() == c.bytes;
    assert Windows(cs + [c], m) == Windows(cs, m) + [c.bytes];
    FlatConcat(Windows(cs, m), [c.bytes]);
    Single(c.bytes);
    assert (cs + [c])[|cs|] == c && forall i | 0 <= i < |cs| :: (cs + [c])[i] == cs[i];
  }

  lemma MemoryAdd(cs: seq<Cell>, c: Cell, new_: set<object>, loans: set<Loan>, own: set<object>,
      shared: set<array<byte>>, freed: multiset<array<byte>>)
    requires Memory(cs, loans, own, shared, freed) && c.recycle && c.block in new_
    requires forall o | o in new_ :: o !in own
    requires forall a | a in shared :: a !in new_
    ensures Memory(cs + [c], loans, own + new_, shared, freed)
  {}

  /** Writing x into the free memory of cell i. */
  ghost function Stamp(c: Cell, x: seq<byte>): Cell
    requires c.w + |x| <= |c.bytes|
  {
    c.(bytes := c.bytes[..c.w] + x + c.bytes[c.w + |x|..])
  }

  lemma StampCell(c: Cell, x: seq<byte>)
    requires c.Ok() && c.w + |x| <= |c.bytes|
    ensures Stamp(c, x).Ok() && Stamp(c, x).Data() == c.Data()
    ensures Stamp(c, x).Window() == x + c.Window()[|x|..] && |Stamp(c, x).bytes| == |c.bytes|
  {}

  /** Writing into free memory changes nothing that is unread. */
  lemma StampStep(cs: seq<Cell>, k: nat, m: nat, i: nat, x: seq<byte>)
    requires Ordered(cs, k, m) && m <= i < |cs| && |x| <= |cs[i].bytes| - cs[i].w
    ensures Ordered(cs[i := Stamp(cs[i], x)], k, m)
    ensures Datas(cs[i := Stamp(cs[i], x)]) == Datas(cs)
    ensures Windows(cs[i := Stamp(cs[i], x)], m) == Windows(cs, m)[i - m := x + cs[i].Window()[|x|..]]
  {
    StampCell(cs[i], x);
    DatasUpdate(cs, i, Stamp(cs[i], x));
    WindowsUpdate(cs, m, i, Stamp(cs[i], x));
  }

  lemma MemoryStamp(cs: seq<Cell>, i: nat, x: seq<byte>, loans: set<Loan>, own: set<object>,
      shared: set<array<byte>>, freed: multiset<array<byte>>)
    requires i < |cs| && cs[i].w + |x| <= |cs[i].bytes| && Memory(cs, loans, own, shared, freed)
    ensures Memory(cs[i := Stamp(cs[i], x)], loans, own, shared, freed)
  {}

  /** The block of a node with room is used by no other node, and no loan reaches into the room. */
  lemma RoomIsPrivate(cs: seq<Cell>, k: nat, m: nat, i: nat, loans: set<Loan>, own: set<object>,
      shared: set<array<byte>>, freed: multiset<array<byte>>)
    requires Ordered(cs, k, m) && Memory(cs, loans, own, shared, freed) && i < |cs| && cs[i].w < |cs[i].bytes|
    ensures cs[i].block != null && cs[i].block in own && cs[i].block !in shared
    ensures forall j | 0 <= j < |cs| && j != i :: cs[j].block != cs[i].block
    ensures forall l | l in loans && l.arr == cs[i].block :: l.lo + |l.bytes| <= cs[i].w
  {}

  lemma StampSpace(cs: seq<Cell>, k: nat, m: nat, i: nat, x: seq<byte>)
    requires Ordered(cs, k, m) && m <= i < |cs| && |x| <= |cs[i].bytes| - cs[i].w
    ensures Space(cs[i := Stamp(cs[i], x)], m) == Space(cs, m)
  {
    hide Flat;
    var ds := cs[i := Stamp(cs[i], x)];
    StampStep(cs, k, m, i, x);
    FlatAt(Windows(cs, m), i - m);
    FlatAt(Windows(ds, m), i - m);
    assert Windows(ds, m)[..i - m] == Windows(cs, m)[..i - m];
    assert Windows(ds, m)[i - m + 1..] == Windows(cs, m)[i - m + 1..];
    assert forall j | 0 <= j < |cs| :: ds[j].recycle == cs[j].recycle && ds[j].block == cs[j].block;
  }

  /** The free memory of a prefix of the chain, cell by cell. */
  lemma RoomTo(cs: seq<Cell>, m: nat, i: nat)
    requires m <= i < |cs|
    ensures Room(cs[..i + 1], m) == Room(cs[..i], m) + cs[i].Window()
    ensures Room(cs[..i + 1], m) <= Room(cs, m)
    ensures i + 1 == |cs| ==> Room(cs[..i + 1], m) == Room(cs, m)
  {
    hide Flat;
    assert Windows(cs[..i + 1], m) == Windows(cs[..i], m) + [cs[i].Window()];
    FlatConcat(Windows(cs[..i], m), [cs[i].Window()]);
    Single(cs[i].Window());
    assert Windows(cs, m) == Windows(cs[..i + 1], m) + Windows(cs, i + 1);
    FlatConcat(Windows(cs[..i + 1], m), Windows(cs, i + 1));
    if i + 1 == |cs| { assert cs[..i + 1] == cs; }
  }

  lemma NoRoomBefore(cs: seq<Cell>, m: nat)
    requires m <= |cs|
    ensures Room(cs[..m], m) == []
  {}

  /** Writing x after a text that already fills the free memory before cell i. */
  lemma ScatterStep(cs: seq<Cell>, k: nat, m: nat, i: nat, done: seq<byte>, x: seq<byte>)
    requires Ordered(cs, k, m) && m <= i < |cs| && |x| <= |cs[i].bytes| - cs[i].w && Room(cs[..i], m) == done
    ensures done + x <= Room(cs[i := Stamp(cs[i], x)], m)
    ensures |x| == |cs[i].bytes| - cs[i].w ==> Room(cs[i := Stamp(cs[i], x)][..i + 1], m) == done + x
  {
    hide Room, Ordered;
    var ds := cs[i := Stamp(cs[i], x)];
    CellOk(cs, k, m, i);
    StampCell(cs[i], x);
    assert ds[..i] == cs[..i];
    RoomTo(ds, m, i);
  }

  lemma CellOk(cs: seq<Cell>, k: nat, m: nat, i: nat)
    requires Ordered(cs, k, m) && i < |cs|
    ensures cs[i].Ok()
  {}

  // ---- linking ----

  ghost function LinkedCell(b: array<byte>, bytes: seq<byte>): Cell { Cell(b, bytes, 0, |bytes|, false) }

  /** Linking a caller's memory into an unwritten cell appends one packet. */
  lemma LinkStep(cs: seq<Cell>, k: nat, m: nat, i: nat, b: array<byte>, bytes: seq<byte>)
    requires Ordered(cs, k, m) && m <= i < |cs| && cs[i].w == 0 && |bytes| == b.Length
    ensures Ordered(cs[i := LinkedCell(b, bytes)], k, i)
    ensures Packets(cs[i := LinkedCell(b, bytes)]) == Packets(cs) + NonEmpty([bytes])
    ensures Stream(cs[i := LinkedCell(b, bytes)]) == Stream(cs) + bytes
  {
    hide Flat, NonEmpty;
    DatasUpdate(cs, i, LinkedCell(b, bytes));
    assert LinkedCell(b, bytes).Data() == bytes;
    assert AllEmpty(Datas(cs)[i..]);
    NonEmptyExtend(Datas(cs), i, bytes);
  }

  lemma MemoryLink(cs: seq<Cell>, i: nat, b: array<byte>, bytes: seq<byte>, loans: set<Loan>, own: set<object>,
      shared: set<array<byte>>, freed: multiset<array<byte>>)
    requires i < |cs| && cs[i].Ok() && cs[i].w == 0 && Memory(cs, loans, own, shared, freed) && b !in own
    ensures Memory(cs[i := LinkedCell(b, bytes)], loans, own, shared + {b},
      freed + OwnBlock(cs[i]))
  {}

  /** A chain of linked nodes after the last node, which is the write node. */
  lemma AddLinked(cs: seq<Cell>, k: nat, ds: seq<Cell>)
    requires |cs| > 0 && Ordered(cs, k, |cs| - 1)
    requires forall i | 0 <= i < |ds| :: ds[i].Ok() && !ds[i].recycle && ds[i].r == 0
    ensures Ordered(cs + ds, k, |cs + ds| - 1)
    ensures Packets(cs + ds) == Packets(cs) + Packets(ds) && Stream(cs + ds) == Stream(cs) + Stream(ds)
  {
    hide Flat, NonEmpty;
    assert Datas(cs + ds) == Datas(cs) + Datas(ds);
    FlatConcat(Datas(cs), Datas(ds));
    NonEmptyConcat(Datas(cs), Datas(ds));
  }

  lemma MemoryAddLinked(cs: seq<Cell>, ds: seq<Cell>, new_: set<object>, loans: set<Loan>, own: set<object>,
      shared: set<array<byte>>, shared': set<array<byte>>, freed: multiset<array<byte>>)
    requires Memory(cs, loans, own, shared, freed)
    requires forall a | a in shared' :: a !in own && a !in new_
    requires shared <= shared'
    requires forall i | 0 <= i < |ds| :: ds[i].block in shared' && !ds[i].recycle
    ensures Memory(cs + ds, loans, own + new_, shared', freed)
  {}

  // ---- releasing ----

  /** A cell before the read position can be dropped. */
  lemma DropHead(cs: seq<Cell>, k: nat, m: nat)
    requires Ordered(cs, k, m) && k > 0
    ensures Ordered(cs[1..], k - 1, m - 1)
    ensures Stream(cs[1..]) == Stream(cs) && Packets(cs[1..]) == Packets(cs)
    ensures Space(cs, m).0 ==> Space(cs[1..], m - 1) == Space(cs, m)
  {
    assert Datas(cs)[1..] == Datas(cs[1..]);
    assert Datas(cs)[0] == [];
    assert Windows(cs[1..], m - 1) == Windows(cs, m);
  }

  /** The memory held by a stretch of the chain. */
  ghost function CapSum(cs: seq<Cell>): nat {
    if cs == [] then 0 else |cs[0].bytes| + CapSum(cs[1..])
  }

  lemma {:induction false} CapSumTo(cs: seq<Cell>, i: nat)
    requires i < |cs|
    ensures CapSum(cs[..i + 1]) == CapSum(cs[..i]) + |cs[i].bytes|
    ensures CapSum(cs[..0]) == 0
  {
    if i > 0 {
      assert cs[..i + 1][1..] == cs[1..][..i] && cs[..i][1..] == cs[1..][..i - 1];
      CapSumTo(cs[1..], i - 1);
    }
  }

  lemma CapSumHead(cs: seq<Cell>, i: nat)
    requires 0 < i <= |cs|
    ensures CapSum(cs[..i]) == |cs[0].bytes| + CapSum(cs[1..][..i - 1])
  {
    assert cs[..i][1..] == cs[1..][..i - 1];
  }

  /** The block a cell owns, if any; and the blocks some cells own, as often as they do. */
  ghost function OwnBlock(c: Cell): multiset<array<byte>> {
    if c.recycle && c.block != null then multiset{c.block} else multiset{}
  }

  lemma MemoryNoLoans(cs: seq<Cell>, loans: set<Loan>, own: set<object>, shared: set<array<byte>>,
      freed: multiset<array<byte>>)
    requires Memory(cs, loans, own, shared, freed)
    ensures Memory(cs, {}, own, shared, freed)
  {}

  lemma MemoryDrop(cs: seq<Cell>, own: set<object>, shared: set<array<byte>>, freed: multiset<array<byte>>)
    requires |cs| > 0 && Memory(cs, {}, own, shared, freed)
    ensures Memory(cs[1..], {}, own, shared, freed + OwnBlock(cs[0]))
  {}

  ghost function OwnBlocks(cs: seq<Cell>): multiset<array<byte>> {
    if cs == [] then multiset{} else OwnBlocks(cs[..|cs| - 1]) + OwnBlock(cs[|cs| - 1])
  }

  lemma NoBlocks(cs: seq<Cell>)
    requires cs == []
    ensures OwnBlocks(cs) == multiset{}
  {}

  lemma OnceMore(freed: multiset<array<byte>>, own: set<object>, more: set<object>)
    requires Once(freed, own)
    ensures Once(freed, own + more)
  {}

  lemma OwnBlocksTo(cs: seq<Cell>, i: nat)
    requires i < |cs|
    ensures OwnBlocks(cs[..i + 1]) == OwnBlocks(cs[..i]) + OwnBlock(cs[i])
  {
    assert cs[..i + 1][..i] == cs[..i];
  }

  lemma {:induction false} OwnedBy(cs: seq<Cell>, a: array<byte>) returns (i: nat)
    requires a in OwnBlocks(cs)
    ensures i < |cs| && cs[i].recycle && cs[i].block == a
    decreases |cs|
  {
    if a in OwnBlock(cs[|cs| - 1]) {
      i := |cs| - 1;
    } else {
      i := OwnedBy(cs[..|cs| - 1], a);
    }
  }

  /** No block is owned twice. */
  lemma {:induction false} OwnedOnce(cs: seq<Cell>, a: array<byte>)
    requires forall i, j | 0 <= i < j < |cs| && cs[i].recycle && cs[j].recycle :: cs[i].block != cs[j].block
    ensures OwnBlocks(cs)[a] <= 1
    decreases |cs|
  {
    if cs != [] {
      var before := cs[..|cs| - 1];
      OwnedOnce(before, a);
      if a in OwnBlocks(before) {
        var i := OwnedBy(before, a);
        assert before[i] == cs[i];
      }
    }
  }

  ghost function DumpCell(): Cell { Cell(null, [], 0, 0, false) }

  /** A chain of one node without memory. */
  lemma Fresh(own: set<object>, shared: set<array<byte>>, freed: multiset<array<byte>>)
    requires forall a | a in shared :: a !in own
    requires Once(freed, own)
    ensures Ordered([DumpCell()], 0, 0) && Memory([DumpCell()], {}, own, shared, freed)
    ensures Stream([DumpCell()]) == [] && Packets([DumpCell()]) == [] && Space([DumpCell()], 0) == (true, 0)
  {
    assert Datas([DumpCell()]) == [[]] == Windows([DumpCell()], 0);
    Single([]);
  }

  /** What was freed and what is still owned has been counted once. */
  lemma MemoryOwn(cs: seq<Cell>, loans: set<Loan>, own: set<object>, shared: set<array<byte>>,
      freed: multiset<array<byte>>)
    requires Memory(cs, loans, own, shared, freed)
    ensures Once(freed + OwnBlocks(cs), own)
    ensures forall a | a in shared :: a !in own
  {
    forall a | a in freed + OwnBlocks(cs) ensures a in own && (freed + OwnBlocks(cs))[a] == 1 {
      OwnedOnce(cs, a);
      if a in OwnBlocks(cs) { var i := OwnedBy(cs, a); }
    }
  }

  /** The write node of an empty chain starts again at offset zero; linked memory is let go. */
  ghost function Rewound(c: Cell): Cell {
    if c.recycle then c.(r := 0, w := 0) else Cell(null, [], 0, 0, false)
  }

  lemma RewindStep(cs: seq<Cell>, k: nat, m: nat)
    requires Ordered(cs, k, m) && Stream(cs) == []
    ensures Ordered(cs[m := Rewound(cs[m])], k, m)
    ensures Stream(cs[m := Rewound(cs[m])]) == []
    ensures Space(cs, m).0 ==> Space(cs[m := Rewound(cs[m])], m) == (true, Space(cs, m).1 + cs[m].w)
  {
    hide Flat;
    EmptyPositions(cs, k, m);
    DatasUpdate(cs, m, Rewound(cs[m]));
    assert Rewound(cs[m]).Data() == [];
    assert Datas(cs)[m] == cs[m].Data() == [];
    assert Datas(cs)[m := []] == Datas(cs);
    RoomAt(cs, m);
    RoomAt(cs[m := Rewound(cs[m])], m);
    assert Windows(cs[m := Rewound(cs[m])], m + 1) == Windows(cs, m + 1);
  }

  lemma MemoryRewind(cs: seq<Cell>, m: nat, own: set<object>, shared: set<array<byte>>, freed: multiset<array<byte>>)
    requires m < |cs| && Memory(cs, {}, own, shared, freed)
    ensures Memory(cs[m := Rewound(cs[m])], {}, own, shared, freed)
  {}
}
