/**
 Ownership of a connection's `writing` lock (internal/locker/locker.go, tcpconn.go, udpconn.go). The lock word is
 taken by compare-and-swap and given back by a store, and between the two it belongs either to a thread or to the
 armed write interest. Thread 0 is the poller: it acts for the lock only while write interest is armed.
 */
module WriteToken {
  /** What a thread may do for the lock: nothing; act as its owner; act for the armed interest. */
  datatype Role = Free | Held | Busy

  datatype Token = Token(writing: bool, armed: bool, roles: seq<Role>)

  /** One access to the lock word or to the poller's interest by thread i, whose role changes from r to r'. */
  predicate Access(i: nat, writing: bool, armed: bool, r: Role, writing': bool, armed': bool, r': Role) {
    || (r' == r && writing' == writing && armed' == armed)
    || (r.Free? && r'.Held? && !writing && writing' && armed' == armed)              // lock
    || (r.Held? && r'.Free? && !writing' && armed' == armed)                         // unlock
    || (r.Held? && r'.Free? && writing' == writing && armed')                        // arm
    || (i == 0 && r.Free? && r'.Busy? && armed && writing' == writing && armed')     // wake
    || (r.Busy? && r'.Free? && writing' == writing && armed' == armed)               // return
    || (i == 0 && r.Busy? && r'.Held? && writing' == writing && !armed')             // disarm
  }

  ghost predicate Move(s: Token, t: Token, i: nat) {
    && i < |s.roles| == |t.roles| && t.roles == s.roles[i := t.roles[i]]
    && Access(i, s.writing, s.armed, s.roles[i], t.writing, t.armed, t.roles[i])
  }

  /** A taken lock has exactly one owner, and only the poller acts for armed interest. */
  ghost predicate Owned(s: Token) {
    && |s.roles| > 0
    && (forall i | 0 < i < |s.roles| :: !s.roles[i].Busy?)
    && (forall i, j | 0 <= i < |s.roles| && 0 <= j < |s.roles| && !s.roles[i].Free? && !s.roles[j].Free? :: i == j)
    && (forall i | 0 <= i < |s.roles| && !s.roles[i].Free? :: s.writing)
    && (forall i | 0 <= i < |s.roles| && s.roles[i].Held? :: !s.armed)
    && (s.armed ==> s.writing)
    && (s.roles[0].Busy? ==> s.armed)
    && (s.writing && !s.armed ==> exists i :: 0 <= i < |s.roles| && s.roles[i].Held?)
  }

  /** Every move keeps the lock owned. */
  lemma OwnedKept(s: Token, t: Token, i: nat)
    requires Owned(s) && Move(s, t, i)
    ensures Owned(t)
  {
    if t.writing && !t.armed && !t.roles[i].Held? {
      var j :| 0 <= j < |s.roles| && s.roles[j].Held?;
      assert t.roles[j].Held?;
    }
  }

  /** A lock that is taken while write interest is not armed belongs to a thread. */
  lemma Holder(s: Token) returns (i: nat)
    requires Owned(s) && s.writing && !s.armed
    ensures i < |s.roles| && s.roles[i].Held?
  {
    i :| 0 <= i < |s.roles| && s.roles[i].Held?;
  }

  /** The token of a protocol state: what each thread's position says about the lock. */
  function TokenOf<P>(writing: bool, armed: bool, pc: seq<P>, role: (nat, P) -> Role): (k: Token)
    ensures |k.roles| == |pc| && forall i | 0 <= i < |pc| :: k.roles[i] == role(i, pc[i])
  {
    Token(writing, armed, seq(|pc|, i requires 0 <= i < |pc| => role(i, pc[i])))
  }

  /** A thread that moves from one position to another makes a move if its roles there allow the access. */
  lemma StaysOwned<P>(role: (nat, P) -> Role, i: nat, pc: seq<P>, writing: bool, armed: bool, p: P, writing': bool,
      armed': bool)
    requires i < |pc| && Access(i, writing, armed, role(i, pc[i]), writing', armed', role(i, p))
    requires Owned(TokenOf(writing, armed, pc, role))
    ensures Owned(TokenOf(writing', armed', pc[i := p], role))
  {
    var s, t := TokenOf(writing, armed, pc, role), TokenOf(writing', armed', pc[i := p], role);
    assert t.roles == s.roles[i := t.roles[i]];
    OwnedKept(s, t, i);
  }
}
