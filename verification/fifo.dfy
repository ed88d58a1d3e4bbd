/**
 Whole runs of the linked buffer against a byte queue (internal/buffer/buffer.go). Any list of operations, run on a
 buffer, answers as the same operations do on a plain sequence of bytes; and the slices an operation lent still hold
 their bytes at any later time until an operation that releases memory.
 */
module Fifo {
  import opened Bytes
  import opened BufferNode
  import opened Chain
  import opened LinkedBuffer

  datatype Op =
    | Peek(n: int) | Next(n: int) | Skip(n: int) | Read(size: nat, cleanUp: bool) | PeekBlocks(places: nat) | ReadBlock
    | Write(safe: bool, texts: seq<seq<byte>>) | WriteLimited(safe: bool, limit: int, texts: seq<seq<byte>>)
    | Fill(n: int, incoming: seq<byte>, fail: bool)
    | Release(cleanUp: bool) | OptimizeMemory(cleanUp: bool)

  /** The pieces an operation returned, the slices it lent to show them, the room it offered, and its other results. */
  datatype Answer = Answer(pieces: seq<seq<byte>>, slices: seq<Slice>, room: nat, count: nat, err: Error)

  predicate Lends(op: Op) {
    op.Peek? || op.Next? || op.PeekBlocks? || op.ReadBlock?
  }

  /** The operation may end loans. */
  predicate Ends(op: Op) {
    op.Read? || op.Release? || op.OptimizeMemory?
  }

  function Asked(n: int, len: nat): Error {
    if n < 0 then ErrInvalidParam else if len < n then ErrNoEnoughData else NoError
  }

  /** A write of some bytes: all of them if it links, and so many at least if it copies and no Fill came before. */
  ghost predicate Appends(q: seq<byte>, whole: bool, safe: bool, text: seq<byte>, count: nat, q': seq<byte>) {
    && count <= |text| && q' == q + text[..count]
    && (!safe ==> count == |text|) && (whole ==> count >= Least(|text|, MAX_FILL_LEN))
  }

  /** What an operation on the queue q may answer, and the queue q' it leaves; whole tells that no Fill came before. */
  ghost predicate Step(q: seq<byte>, whole: bool, op: Op, a: Answer, q': seq<byte>) {
    match op
    case Peek(n) => a.err == Asked(n, |q|) && q' == q && (a.err == NoError ==> a.pieces == [q[..n]])
    case Next(n) =>
      a.err == Asked(n, |q|) && (if a.err == NoError then a.pieces == [q[..n]] && q' == q[n..] else q' == q)
    case Skip(n) => a.err == Asked(n, |q|) && q' == if a.err == NoError then q[n..] else q
    case Read(size, _) =>
      var n := if size < |q| then size else |q|;
      a.err == NoError && a.pieces == [q[..n]] && q' == q[n..]
    case PeekBlocks(places) =>
      && a.err == NoError && q' == q && |a.pieces| <= places && (forall p | p in a.pieces :: p != [])
      && Flat(a.pieces) <= q && (|a.pieces| < places ==> Flat(a.pieces) == q)
    case ReadBlock =>
      && a.err == (if q == [] then ErrNoEnoughData else NoError)
      && (if a.err == NoError then |a.pieces| == 1 && a.pieces[0] != [] && q == a.pieces[0] + q' else q' == q)
    case Write(safe, texts) => a.err == NoError && Appends(q, whole, safe, Flat(texts), a.count, q')
    case WriteLimited(safe, limit, texts) =>
      var text := Flat(texts);
      && a.err == (if 0 < limit && text != [] && limit < |q| + |text| then ErrBufferFull else NoError)
      && (if a.err == NoError then Appends(q, whole, safe, text, a.count, q') else a.count == 0 && q' == q)
    case Fill(n, incoming, fail) =>
      && a.err == (if |q| > MAX_BUFFER_SIZE then ErrBufferFull else if fail then ErrReader else NoError)
      && a.count <= |incoming| && q' == q + incoming[..a.count]
      && a.count == (if a.err == NoError then Least(|incoming|, a.room) else 0)
      && (a.err != ErrBufferFull ==> a.room > 0 && (whole ==> a.room >= Buffer.Capped(n)))
    case Release(_) => q' == q
    case OptimizeMemory(_) => q' == q
  }

  lemma Weaken(q: seq<byte>, whole: bool, op: Op, a: Answer, q': seq<byte>)
    requires Step(q, true, op, a, q')
    ensures Step(q, whole, op, a, q')
  {}

  // ---- loans ----

  /** These loans promise the slice. */
  ghost predicate Promised(loans: set<Loan>, s: Slice, bytes: seq<byte>) {
    && s.InBounds() && s.hi - s.lo == |bytes|
    && (bytes != [] ==> s.arr != null && Loan(s.arr, s.lo, bytes) in loans)
  }

  /** Every slice of the answer is promised. */
  ghost predicate AllPromised(loans: set<Loan>, a: Answer) {
    |a.slices| == |a.pieces| && forall j | 0 <= j < |a.slices| :: Promised(loans, a.slices[j], a.pieces[j])
  }

  /** Every slice of the answer still shows its piece, in memory that was not returned to the pool. */
  ghost predicate Shown(b: Buffer, a: Answer)
    reads b`Freed, set s | s in a.slices && s.arr != null :: s.arr
  {
    && |a.slices| == |a.pieces|
    && forall j | 0 <= j < |a.slices| ::
         && a.slices[j].InBounds() && a.slices[j].Bytes() == a.pieces[j]
         && (a.pieces[j] != [] ==> a.slices[j].arr !in b.Freed)
  }

  lemma MorePromises(loans: set<Loan>, loans': set<Loan>, a: Answer)
    requires AllPromised(loans, a) && loans <= loans'
    ensures AllPromised(loans', a)
  {}

  lemma PromisesKept(b: Buffer, a: Answer)
    requires b.Valid() && AllPromised(b.loans, a)
    ensures Shown(b, a)
  {
    hide Buffer.Valid;
    forall j | 0 <= j < |a.slices|
      ensures a.slices[j].InBounds() && a.slices[j].Bytes() == a.pieces[j]
      ensures a.pieces[j] != [] ==> a.slices[j].arr !in b.Freed
    {
      if a.pieces[j] != [] { b.StillLent(a.slices[j], a.pieces[j]); }
    }
  }

  // ---- where the nodes of an empty buffer stand ----

  /** The operation cleans an empty buffer up. */
  predicate Cleans(op: Op) {
    (op.Read? && op.size > 0 && op.cleanUp) || (op.Release? && op.cleanUp) || (op.OptimizeMemory? && op.cleanUp)
  }

  /**
   How far an operation that appends nothing moves the write node: one node if it prepares for copied or read bytes
   and the write node is full, and over unwritten nodes if it links.
   */
  ghost function Moves(b: Buffer, op: Op): nat
    requires b.Valid()
    reads b, b.Repr, b.Shared
  {
    match op
    case Fill(_, _, _) => if |b.Contents()| > MAX_BUFFER_SIZE then 0 else b.WriteMoves(true, 0)
    case Write(safe, texts) => b.WriteMoves(safe, |texts|)
    case WriteLimited(safe, limit, texts) =>
      if 0 < limit && (Flat(texts) == [] || limit < |b.Contents()| + |Flat(texts)|) then 0
      else b.WriteMoves(safe, |texts|)
    case _ => 0
  }

  // ---- one operation ----

  /** The bytes of a slice, copied out. */
  method Copy(s: Slice) returns (bytes: seq<byte>)
    requires s.InBounds()
    ensures bytes == s.Bytes()
  {
    bytes := if s.arr == null then [] else s.arr[s.lo..s.hi];
  }

  method ApplyPeek(b: Buffer, n: int) returns (a: Answer)
    requires b.Valid()
    modifies b
    ensures b.Valid() && b.Repr == old(b.Repr) && b.filled == old(b.filled) && old(b.loans) <= b.loans
    ensures a.err == NoError ==> AllPromised(b.loans, a)
    ensures Step(old(b.Contents()), !old(b.filled), Peek(n), a, b.Contents())
    ensures b.Contents() == [] ==> b.wi - b.ri == old(b.wi - b.ri)
  {
    hide Buffer.Valid, Buffer.Contents, Buffer.Blocks;
    b.Lengths();
    var s, err := b.Peek(n);
    a := Answer([], [], 0, 0, err);
    if err == NoError {
      var bytes := Copy(s);
      a := Answer([bytes], [s], 0, 0, NoError);
    }
  }

  method ApplyNext(b: Buffer, n: int) returns (a: Answer)
    requires b.Valid()
    modifies b, b.Repr
    ensures b.Valid() && b.Repr == old(b.Repr) && b.filled == old(b.filled) && old(b.loans) <= b.loans
    ensures a.err == NoError ==> AllPromised(b.loans, a)
    ensures Step(old(b.Contents()), !old(b.filled), Next(n), a, b.Contents())
    ensures old(b.Contents()) == [] ==> b.wi - b.ri == old(b.wi - b.ri)
  {
    hide Buffer.Valid, Buffer.Contents, Buffer.Blocks;
    b.Lengths();
    var s, err := b.Next(n);
    a := Answer([], [], 0, 0, err);
    if err == NoError {
      var bytes := Copy(s);
      a := Answer([bytes], [s], 0, 0, NoError);
    }
  }

  method ApplySkip(b: Buffer, n: int) returns (a: Answer)
    requires b.Valid()
    modifies b, b.Repr
    ensures b.Valid() && b.Repr == old(b.Repr) && b.filled == old(b.filled) && b.loans == old(b.loans)
    ensures Step(old(b.Contents()), !old(b.filled), Skip(n), a, b.Contents())
    ensures old(b.Contents()) == [] ==> b.wi - b.ri == old(b.wi - b.ri)
  {
    hide Buffer.Valid, Buffer.Contents, OnlyRead;
    b.Lengths();
    var err := b.Skip(n);
    a := Answer([], [], 0, 0, err);
  }

  /** Peek, Next and Skip. */
  method ApplyRead(b: Buffer, op: Op) returns (a: Answer)
    requires b.Valid() && (op.Peek? || op.Next? || op.Skip?)
    modifies b, b.Repr
    ensures b.Valid() && b.Repr == old(b.Repr) && b.filled == old(b.filled) && old(b.loans) <= b.loans
    ensures Lends(op) && a.err == NoError ==> AllPromised(b.loans, a)
    ensures Step(old(b.Contents()), !old(b.filled), op, a, b.Contents())
    ensures old(b.Contents()) == [] == b.Contents() ==> b.wi - b.ri == old(b.wi - b.ri + Moves(b, op))
  {
    hide Buffer.Valid, Buffer.Contents, Step, AllPromised, Buffer.WriteMoves;
    match op {
      case Peek(n) => a := ApplyPeek(b, n);
      case Next(n) => a := ApplyNext(b, n);
      case Skip(n) => a := ApplySkip(b, n);
    }
  }

  method ApplyReadBlock(b: Buffer) returns (a: Answer)
    requires b.Valid()
    modifies b, b.Repr
    ensures b.Valid() && b.Repr == old(b.Repr) && b.filled == old(b.filled) && old(b.loans) <= b.loans
    ensures a.err == NoError ==> AllPromised(b.loans, a)
    ensures Step(old(b.Contents()), !old(b.filled), ReadBlock, a, b.Contents())
    ensures old(b.Contents()) == [] == b.Contents() ==> b.wi - b.ri == old(b.wi - b.ri + Moves(b, ReadBlock))
  {
    hide Buffer.Valid, Buffer.Contents, Buffer.Blocks;
    b.Lengths();
    b.BlocksFlat();
    ghost var ps := b.Blocks();
    var s, err := b.ReadBlock();
    b.BlocksFlat();
    a := Answer([], [], 0, 0, err);
    if err == NoError {
      assert ps[0] in ps;
      var bytes := Copy(s);
      a := Answer([bytes], [s], 0, 0, NoError);
    }
  }

  /** The contents of lent slices. */
  method CopyAll(b: Buffer, slices: seq<Slice>, ghost ps: seq<seq<byte>>) returns (pieces: seq<seq<byte>>)
    requires |slices| <= |ps| && forall j | 0 <= j < |slices| :: b.Lent(slices[j], ps[j])
    ensures pieces == ps[..|slices|]
  {
    pieces := [];
    for i := 0 to |slices|
      invariant pieces == ps[..i]
    {
      var bytes := Copy(slices[i]);
      pieces := pieces + [bytes];
    }
  }

  method ApplyPeekBlocks(b: Buffer, places: nat) returns (a: Answer)
    requires b.Valid()
    modifies b
    ensures b.Valid() && b.Repr == old(b.Repr) && b.filled == old(b.filled) && old(b.loans) <= b.loans
    ensures a.err == NoError && AllPromised(b.loans, a)
    ensures Step(old(b.Contents()), !old(b.filled), PeekBlocks(places), a, b.Contents())
    ensures old(b.Contents()) == [] == b.Contents() ==> b.wi - b.ri == old(b.wi - b.ri + Moves(b, PeekBlocks(places)))
  {
    hide Buffer.Valid, Flat;
    b.BlocksFlat();
    ghost var ps := b.Blocks();
    var slices := b.PeekBlocks(places);
    var pieces := CopyAll(b, slices, ps);
    a := Answer(pieces, slices, 0, 0, NoError);
    assert ps == ps[..|slices|] + ps[|slices|..];
    FlatConcat(ps[..|slices|], ps[|slices|..]);
    if |slices| == |ps| { assert ps[..|slices|] == ps; }
  }

  method ApplyWrite(b: Buffer, op: Op) returns (a: Answer)
    requires b.Valid() && op.Write?
    modifies b, b.Repr
    ensures b.Valid() && old(b.Repr) <= b.Repr && fresh(b.Repr - old(b.Repr))
    ensures b.filled == old(b.filled) && b.loans == old(b.loans)
    ensures Step(old(b.Contents()), !old(b.filled), op, a, b.Contents())
    ensures old(b.Contents()) == [] == b.Contents() ==> b.wi - b.ri == old(b.wi - b.ri + Moves(b, op))
  {
    hide Buffer.Valid, Buffer.Contents, Flat, Texts;
    b.Lengths();
    var bs := ArraysOf(op.texts);
    var n := b.Writev(op.safe, bs);
    a := Answer([], [], 0, n, NoError);
  }

  method ApplyWriteLimited(b: Buffer, op: Op) returns (a: Answer)
    requires b.Valid() && op.WriteLimited?
    modifies b, b.Repr
    ensures b.Valid() && old(b.Repr) <= b.Repr && fresh(b.Repr - old(b.Repr))
    ensures b.filled == old(b.filled) && b.loans == old(b.loans)
    ensures Step(old(b.Contents()), !old(b.filled), op, a, b.Contents())
    ensures old(b.Contents()) == [] == b.Contents() ==> b.wi - b.ri == old(b.wi - b.ri + Moves(b, op))
  {
    hide Buffer.Valid, Buffer.Contents, Flat, Texts;
    b.Lengths();
    var bs := ArraysOf(op.texts);
    var n, err := b.WritevLimited(op.safe, op.limit, bs);
    a := Answer([], [], 0, n, err);
  }

  method RoomIn(vec: seq<Slice>) returns (room: nat)
    ensures room == TotalLen(vec)
  {
    room := 0;
    for i := |vec| downto 0
      invariant room == TotalLen(vec[i..])
    {
      room := room + if vec[i].lo <= vec[i].hi then vec[i].hi - vec[i].lo else 0;
      assert vec[i..][1..] == vec[i + 1..];
    }
    assert vec[0..] == vec;
  }

  method ApplyFill(b: Buffer, op: Op) returns (a: Answer)
    requires b.Valid() && op.Fill?
    modifies b, b.Repr
    ensures b.Valid() && old(b.Repr) <= b.Repr && fresh(b.Repr - old(b.Repr)) && b.loans == old(b.loans)
    ensures Step(old(b.Contents()), !old(b.filled), op, a, b.Contents())
    ensures old(b.Contents()) == [] == b.Contents() ==> b.wi - b.ri == old(b.wi - b.ri + Moves(b, op))
  {
    hide Buffer.Valid, Buffer.Contents;
    b.Lengths();
    var vec, actual, err := b.Fill(op.n, op.incoming, op.fail);
    var room := RoomIn(vec);
    a := Answer([], [], room, actual, err);
  }

  /** The operations that may end loans. */
  method ApplyRelease(b: Buffer, op: Op) returns (a: Answer)
    requires b.Valid() && Ends(op)
    modifies b, b.Repr
    ensures b.Valid() && old(b.Repr) <= b.Repr && fresh(b.Repr - old(b.Repr)) && b.filled == old(b.filled)
    ensures Step(old(b.Contents()), !old(b.filled), op, a, b.Contents())
    ensures old(b.Contents()) == [] ==> b.wi - b.ri == if Cleans(op) then 0 else old(b.wi - b.ri)
  {
    hide Buffer.Valid, Buffer.Contents, Buffer.Blocks, Buffer.Optimized, CapSum, OwnBlocks, Rewound;
    a := Answer([], [], 0, 0, NoError);
    match op {
      case Read(size, cleanUp) =>
        var p := new byte[size];
        var n := b.Read(p, cleanUp);
        a := Answer([p[..n]], [], 0, n, NoError);
      case Release(cleanUp) => b.Release(cleanUp);
      case OptimizeMemory(cleanUp) => b.OptimizeMemory(cleanUp);
    }
  }

  /**
   One operation on a buffer is one on the queue of its unread bytes; it lends what it returns, and ends no loan. An
   operation that leaves an empty buffer empty parts its read and write node exactly when it moves the write node.
   */
  method Apply(b: Buffer, op: Op) returns (a: Answer)
    requires b.Valid()
    modifies b, b.Repr
    ensures b.Valid() && old(b.Repr) <= b.Repr && fresh(b.Repr - old(b.Repr))
    ensures b.filled ==> old(b.filled) || op.Fill?
    ensures !Ends(op) ==> old(b.loans) <= b.loans
    ensures Lends(op) && a.err == NoError ==> AllPromised(b.loans, a)
    ensures Step(old(b.Contents()), !old(b.filled), op, a, b.Contents())
    ensures old(b.Contents()) == [] == b.Contents() ==>
      (b.rnode == b.wnode <==> Cleans(op) || old(b.rnode == b.wnode && Moves(b, op) == 0))
  {
    hide Buffer.Valid, Buffer.Contents, Buffer.WriteMoves, Step, AllPromised;
    b.Apart();
    if Ends(op) {
      a := ApplyRelease(b, op);
    } else if op.Write? {
      a := ApplyWrite(b, op);
    } else if op.WriteLimited? {
      a := ApplyWriteLimited(b, op);
    } else if op.Fill? {
      a := ApplyFill(b, op);
    } else if op.PeekBlocks? {
      a := ApplyPeekBlocks(b, op.places);
    } else if op.ReadBlock? {
      a := ApplyReadBlock(b);
    } else {
      a := ApplyRead(b, op);
    }
    b.Apart();
  }

  // ---- whole runs ----

  /** A run of the queue: the operations, their answers, and the queue before the first and after each of them. */
  ghost predicate Trace(ops: seq<Op>, answers: seq<Answer>, qs: seq<seq<byte>>) {
    && |answers| == |ops| && |qs| == |ops| + 1
    && forall i | 0 <= i < |ops| :: Step(qs[i], forall j | 0 <= j < i :: !ops[j].Fill?, ops[i], answers[i], qs[i + 1])
  }

  /** Operation i lent slices, and no operation up to the k-th has ended loans since. */
  ghost predicate Outstanding(ops: seq<Op>, answers: seq<Answer>, i: nat, k: nat)
    requires |answers| == k <= |ops|
  {
    i < k && Lends(ops[i]) && answers[i].err == NoError && forall j | i < j < k :: !Ends(ops[j])
  }

  ghost predicate AllKept(loans: set<Loan>, ops: seq<Op>, answers: seq<Answer>)
    requires |answers| <= |ops|
  {
    forall k | 0 <= k < |answers| && Outstanding(ops, answers, k, |answers|) :: AllPromised(loans, answers[k])
  }

  /** An operation adds its own promises and keeps the outstanding ones, unless it ends loans. */
  lemma KeptNext(loans: set<Loan>, loans': set<Loan>, ops: seq<Op>, answers: seq<Answer>, a: Answer)
    requires |answers| < |ops| && AllKept(loans, ops, answers)
    requires !Ends(ops[|answers|]) ==> loans <= loans'
    requires Lends(ops[|answers|]) && a.err == NoError ==> AllPromised(loans', a)
    ensures AllKept(loans', ops, answers + [a])
  {
    hide AllPromised;
    var i, now := |answers|, answers + [a];
    forall k | 0 <= k <= i && Outstanding(ops, now, k, i + 1) ensures AllPromised(loans', now[k]) {
      if k < i {
        assert Outstanding(ops, answers, k, i) && !Ends(ops[i]);
        MorePromises(loans, loans', answers[k]);
      }
    }
  }

  /**
   Every list of operations on a new buffer is answered as by an empty queue. Every slice it lent, and that no later
   operation has released, still shows its bytes.
   */
  method Run(ops: seq<Op>) returns (b: Buffer, answers: seq<Answer>, ghost qs: seq<seq<byte>>)
    ensures b.Valid() && Trace(ops, answers, qs) && qs[0] == [] && qs[|ops|] == b.Contents()
    ensures forall i | 0 <= i < |ops| && Outstanding(ops, answers, i, |ops|) :: Shown(b, answers[i])
  {
    hide Buffer.Valid, Buffer.Contents, Buffer.WriteMoves, Moves, Cleans, Step, Shown, AllPromised;
    b := new Buffer();
    answers, qs := [], [b.Contents()];
    for i := 0 to |ops|
      invariant b.Valid() && fresh(b) && fresh(b.Repr)
      invariant |answers| == i && |qs| == i + 1 && qs[0] == [] && qs[i] == b.Contents()
      invariant b.filled ==> exists j :: 0 <= j < i && ops[j].Fill?
      invariant forall k | 0 <= k < i ::
        Step(qs[k], forall j | 0 <= j < k :: !ops[j].Fill?, ops[k], answers[k], qs[k + 1])
      invariant AllKept(b.loans, ops, answers)
    {
      ghost var q, filled, loans := b.Contents(), b.filled, b.loans;
      ghost var whole := forall j | 0 <= j < i :: !ops[j].Fill?;
      var a := Apply(b, ops[i]);
      if !filled { Weaken(q, whole, ops[i], a, b.Contents()); }
      KeptNext(loans, b.loans, ops, answers, a);
      answers, qs := answers + [a], qs + [b.Contents()];
    }
    forall k | 0 <= k < |ops| && Outstanding(ops, answers, k, |ops|) ensures Shown(b, answers[k]) {
      PromisesKept(b, answers[k]);
    }
  }
}
