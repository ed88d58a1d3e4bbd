/** One node of the linked buffer: a block of memory with a read and a write offset. */
module BufferNode {
  import opened Bytes

  /** A slice of memory that is lent to a caller; a nil slice has no array. */
  datatype Slice = Slice(arr: array?<byte>, lo: nat, hi: nat) {
    ghost predicate InBounds() {
      lo <= hi && (if arr == null then hi == 0 else hi <= arr.Length)
    }

    ghost function Bytes(): (s: seq<byte>)
      requires InBounds()
      reads arr
      ensures |s| == hi - lo
    {
      if arr == null then [] else arr[lo..hi]
    }
  }

  datatype Error = NoError | ErrNoEnoughData | ErrInvalidParam | ErrBufferFull | ErrReader

  class Node {
    var next: Node?
    var block: array?<byte>
    var r: nat
    var w: nat
    var recycle: bool

    /** A block the node does not own is a caller's memory and is never written. */
    ghost predicate Ok()
      reads this
    {
      r <= w <= Cap() && (if recycle then block != null else w == Cap())
    }

    function Cap(): nat
      reads this
    {
      if block == null then 0 else block.Length
    }

    function Len(): int
      reads this
    {
      w - r
    }

    function Rest(): int
      reads this
    {
      Cap() - w
    }

    predicate IsFull()
      reads this
    {
      w == Cap()
    }

    /** The bytes written and not yet read. */
    ghost function Data(): (s: seq<byte>)
      requires Ok()
      reads this, block
      ensures |s| == Len()
    {
      if block == null then [] else block[r..w]
    }

    /** The bytes of the block that may still be written. */
    ghost function Window(): (s: seq<byte>)
      requires Ok()
      reads this, block
      ensures |s| == Rest()
    {
      if block == null then [] else block[w..]
    }

    /** A node from the pool: no memory, nothing to read or write. */
    constructor ()
      ensures Ok() && next == null && block == null && r == w == 0 && !recycle
    {
      next, block, r, w, recycle := null, null, 0, 0, false;
    }

    constructor WithBlock(size: nat)
      ensures Ok() && next == null && r == w == 0 && recycle
      ensures fresh(block) && Cap() == size
    {
      next, r, w, recycle := null, 0, 0, true;
      block := new byte[size];
    }

    method Peek(num: nat) returns (s: Slice, err: Error)
      requires Ok()
      ensures err == if num <= Len() then NoError else ErrNoEnoughData
      ensures err == NoError ==> s == Slice(block, r, r + num) && s.InBounds() && s.Bytes() == Data()[..num]
    {
      if num > Len() { return Slice(null, 0, 0), ErrNoEnoughData; }
      return Slice(block, r, r + num), NoError;
    }

    method Readn(num: nat) returns (s: Slice, err: Error)
      requires Ok()
      modifies this`r
      ensures Ok() && err == if num <= old(Len()) then NoError else ErrNoEnoughData
      ensures err == NoError ==> s == Slice(block, old(r), r) && s.InBounds() && s.Bytes() == old(Data())[..num]
      ensures err == NoError ==> r == old(r) + num && Data() == old(Data())[num..]
      ensures err != NoError ==> r == old(r)
    {
      if num > Len() { return Slice(null, 0, 0), ErrNoEnoughData; }
      s, err := Slice(block, r, r + num), NoError;
      assert s.Bytes() == Data()[..num];
      r := r + num;
    }

    method Skip(num: nat) returns (err: Error)
      requires Ok()
      modifies this`r
      ensures Ok() && err == if num <= old(Len()) then NoError else ErrNoEnoughData
      ensures r == old(r) + if err == NoError then num else 0
      ensures err == NoError ==> Data() == old(Data())[num..]
    {
      if num > Len() { return ErrNoEnoughData; }
      err := NoError;
      r := r + num;
    }

    /** Links a caller's memory and leaves the read offset; `freed` is the node's own old block if it had one. */
    method SetBlock(b: array<byte>) returns (ghost freed: multiset<array<byte>>)
      requires Ok()
      modifies this`block, this`w, this`recycle
      ensures block == b && w == Cap() && !recycle && (Ok() <==> r <= b.Length)
      ensures Ok() ==> Data() == b[r..]
      ensures freed == if old(recycle) then multiset{old(block)} else multiset{}
    {
      freed := if recycle then multiset{block} else multiset{};
      block := b;
      w := b.Length;
      recycle := false;
    }

    method Reset() returns (ghost freed: multiset<array<byte>>)
      requires Ok()
      modifies this
      ensures Ok() && next == null && block == null && r == w == 0 && !recycle
      ensures freed == if old(recycle) then multiset{old(block)} else multiset{}
    {
      freed := if recycle then multiset{block} else multiset{};
      next, block, r, w, recycle := null, null, 0, 0, false;
    }
  }
}
