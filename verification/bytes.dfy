/** Byte sequences, and lists of byte sequences seen as one stream or as a queue of packets. */
module Bytes {
  newtype byte = x: int | 0 <= x < 256

  /** The one stream that a list of pieces spells out. */
  function Flat(ss: seq<seq<byte>>): (r: seq<byte>) {
    if ss == [] then [] else ss[0] + Flat(ss[1..])
  }

  /** The pieces that hold at least one byte, in order. */
  function NonEmpty(ss: seq<seq<byte>>): (r: seq<seq<byte>>)
    ensures forall i | 0 <= i < |r| :: r[i] != []
  {
    if ss == [] then []
    else if ss[0] == [] then NonEmpty(ss[1..])
    else [ss[0]] + NonEmpty(ss[1..])
  }

  ghost predicate AllEmpty(ss: seq<seq<byte>>) {
    forall i | 0 <= i < |ss| :: ss[i] == []
  }

  lemma {:induction false} FlatConcat(a: seq<seq<byte>>, b: seq<seq<byte>>)
    ensures Flat(a + b) == Flat(a) + Flat(b)
  {
    if a == [] {
      assert a + b == b;
    } else {
      assert (a + b)[1..] == a[1..] + b;
      FlatConcat(a[1..], b);
    }
  }

  lemma {:induction false} NonEmptyConcat(a: seq<seq<byte>>, b: seq<seq<byte>>)
    ensures NonEmpty(a + b) == NonEmpty(a) + NonEmpty(b)
  {
    if a == [] {
      assert a + b == b;
    } else {
      assert (a + b)[1..] == a[1..] + b;
      NonEmptyConcat(a[1..], b);
    }
  }

  lemma {:induction false} EmptyPieces(ss: seq<seq<byte>>)
    requires AllEmpty(ss)
    ensures Flat(ss) == [] && NonEmpty(ss) == []
  {
    if ss != [] { EmptyPieces(ss[1..]); }
  }

  /** Dropping empty pieces does not change the stream. */
  lemma {:induction false} FlatNonEmpty(ss: seq<seq<byte>>)
    ensures Flat(NonEmpty(ss)) == Flat(ss)
    ensures NonEmpty(ss) == [] <==> Flat(ss) == []
  {
    if ss != [] {
      FlatNonEmpty(ss[1..]);
      if ss[0] != [] { assert NonEmpty(ss)[1..] == NonEmpty(ss[1..]); }
    }
  }

  lemma Single(x: seq<byte>)
    ensures Flat([x]) == x
    ensures NonEmpty([x]) == if x == [] then [] else [x]
  {
    assert Flat([x]) == x + Flat([]);
  }

  lemma SplitAt<T>(ss: seq<T>, i: nat)
    requires i < |ss|
    ensures ss == ss[..i + 1] + ss[i + 1..] && ss[..i + 1] == ss[..i] + [ss[i]]
  {}

  /** A stream splits at any piece. */
  lemma FlatAt(ss: seq<seq<byte>>, i: nat)
    requires i < |ss|
    ensures Flat(ss) == Flat(ss[..i]) + ss[i] + Flat(ss[i + 1..])
  {
    hide Flat, NonEmpty;
    SplitAt(ss, i);
    FlatConcat(ss[..i + 1], ss[i + 1..]);
    FlatConcat(ss[..i], [ss[i]]);
    Single(ss[i]);
  }

  lemma NonEmptyAt(ss: seq<seq<byte>>, i: nat)
    requires i < |ss|
    ensures NonEmpty(ss) == NonEmpty(ss[..i]) + NonEmpty([ss[i]]) + NonEmpty(ss[i + 1..])
  {
    hide Flat, NonEmpty;
    SplitAt(ss, i);
    NonEmptyConcat(ss[..i + 1], ss[i + 1..]);
    NonEmptyConcat(ss[..i], [ss[i]]);
  }

  /** Taking k bytes off the first piece that may hold data takes k bytes off the stream. */
  lemma FlatConsume(ss: seq<seq<byte>>, i: nat, k: nat)
    requires i < |ss| && AllEmpty(ss[..i]) && k <= |ss[i]|
    ensures k <= |Flat(ss)| && Flat(ss)[..k] == ss[i][..k]
    ensures Flat(ss[i := ss[i][k..]]) == Flat(ss)[k..]
  {
    hide Flat, NonEmpty;
    var tt := ss[i := ss[i][k..]];
    FlatAt(ss, i);
    FlatAt(tt, i);
    assert tt[..i] == ss[..i] && tt[i + 1..] == ss[i + 1..];
    EmptyPieces(ss[..i]);
  }

  /** Emptying the first piece that holds data removes exactly the first packet. */
  lemma NonEmptyConsume(ss: seq<seq<byte>>, i: nat)
    requires i < |ss| && AllEmpty(ss[..i]) && ss[i] != []
    ensures NonEmpty(ss) == [ss[i]] + NonEmpty(ss[i := []])
  {
    hide Flat, NonEmpty;
    var tt := ss[i := []];
    NonEmptyAt(ss, i);
    NonEmptyAt(tt, i);
    assert tt[..i] == ss[..i] && tt[i + 1..] == ss[i + 1..];
    EmptyPieces(ss[..i]);
    Single(ss[i]);
    Single(tt[i]);
  }

  /** Adding bytes to the last piece that may hold data appends them to the stream. */
  lemma FlatExtend(ss: seq<seq<byte>>, i: nat, x: seq<byte>)
    requires i < |ss| && AllEmpty(ss[i + 1..])
    ensures Flat(ss[i := ss[i] + x]) == Flat(ss) + x
  {
    hide Flat, NonEmpty;
    var tt := ss[i := ss[i] + x];
    FlatAt(ss, i);
    FlatAt(tt, i);
    assert tt[..i] == ss[..i] && tt[i + 1..] == ss[i + 1..];
    EmptyPieces(ss[i + 1..]);
  }

  /** Setting an empty piece after all data appends one packet, or none if the piece is empty. */
  lemma NonEmptyExtend(ss: seq<seq<byte>>, i: nat, x: seq<byte>)
    requires i < |ss| && AllEmpty(ss[i..])
    ensures NonEmpty(ss[i := x]) == NonEmpty(ss) + NonEmpty([x])
    ensures Flat(ss[i := x]) == Flat(ss) + x
  {
    hide Flat, NonEmpty;
    var tt := ss[i := x];
    NonEmptyAt(ss, i);
    NonEmptyAt(tt, i);
    assert tt[..i] == ss[..i] && tt[i + 1..] == ss[i + 1..];
    assert ss[i] == ss[i..][0] == [];
    assert ss[i + 1..] == ss[i..][1..];
    EmptyPieces(ss[i + 1..]);
    Single(ss[i]);
    FlatExtend(ss, i, x);
    assert ss[i] + x == x;
  }

  /** A stream with bytes in it has a piece with bytes in it. */
  lemma FlatHasPiece(ss: seq<seq<byte>>, i: nat)
    requires i <= |ss| && AllEmpty(ss[..i]) && Flat(ss) != []
    ensures exists j :: i <= j < |ss| && ss[j] != []
  {
    if forall j | i <= j < |ss| :: ss[j] == [] {
      forall j | 0 <= j < |ss| ensures ss[j] == [] {
        if j < i { assert ss[j] == ss[..i][j]; }
      }
      EmptyPieces(ss);
    }
  }

  lemma DropDrop(s: seq<byte>, a: nat, b: nat)
    requires a + b <= |s|
    ensures s[a..][b..] == s[a + b..]
  {}

  lemma TakeTake(t: seq<byte>, s: seq<byte>, a: nat, b: nat)
    requires a + b <= |s|
    ensures t + s[..a] + s[a..][..b] == t + s[..a + b]
    ensures s[a..][b..] == s[a + b..]
  {
    assert s[..a + b] == s[..a] + s[a..][..b];
  }

  lemma TakeMore(s: seq<byte>, a: nat, b: nat)
    requires a + b <= |s|
    ensures s[..a] + s[a..a + b] == s[..a + b]
  {}

  /** A piece taken from the front of all that is left. */
  lemma SplitFront<T>(before: seq<T>, front: seq<T>, all: seq<T>, n: nat)
    requires front <= all && n <= |front|
    ensures before + front[..n] + all[n..] == before + all
  {
    assert front[..n] + all[n..] == all;
  }

  lemma AppendPiece(done: seq<byte>, t: seq<byte>, copied: nat, c: nat)
    requires copied <= |done| && c <= |t| && (0 < c ==> copied == |done|)
    ensures done[..copied] + t[..c] == (done + t)[..copied + c]
  {}

  lemma FlatTo(ss: seq<seq<byte>>, i: nat)
    requires i < |ss|
    ensures Flat(ss[..i + 1]) == Flat(ss[..i]) + ss[i]
    ensures NonEmpty(ss[..i + 1]) == NonEmpty(ss[..i]) + NonEmpty([ss[i]])
  {
    hide Flat, NonEmpty;
    assert ss[..i + 1] == ss[..i] + [ss[i]];
    FlatConcat(ss[..i], [ss[i]]);
    NonEmptyConcat(ss[..i], [ss[i]]);
    Single(ss[i]);
  }

  /** A memory that held base now holds the first ack bytes of text, and base after them. */
  ghost predicate Copied(d: seq<byte>, text: seq<byte>, base: seq<byte>, ack: nat) {
    ack <= |text| && ack <= |base| && d == text[..ack] + base[ack..]
  }

  lemma CopyStep(d: seq<byte>, text: seq<byte>, base: seq<byte>, ack: nat, s: seq<byte>)
    requires Copied(d, text, base, ack)
    requires ack + |s| <= |text| && ack + |s| <= |base| && s == text[ack..][..|s|]
    ensures |d| == |base| && Copied(d[..ack] + s + d[ack + |s|..], text, base, ack + |s|)
  {
    assert text[..ack + |s|] == text[..ack] + s;
    assert d[ack + |s|..] == base[ack + |s|..];
  }

  lemma CopyStart(d: seq<byte>, text: seq<byte>)
    ensures Copied(d, text, d, 0)
  {}

  lemma CopyEnd(d: seq<byte>, text: seq<byte>, base: seq<byte>, ack: nat)
    requires Copied(d, text, base, ack)
    ensures ack <= |text| && ack <= |d| == |base| && d[..ack] == text[..ack] && d[ack..] == base[ack..]
  {}
}
