/**
 Poller descriptors (internal/poller/desc_cache.go, netfd.go). A descriptor is on the free chain, in use, or marked:
 the kernel may still report events for one in use or marked, so a marked one is reset only by free, which the
 poller calls between rounds of events.
 */
module DescCache {
  datatype Status = Free | InUse | Marked

  class Desc {
    const index: nat
    var next: Desc?
    var fd: int
    var bound: bool        // whether it has a poller
    var interest: int      // the event last registered

    constructor (index: nat)
      ensures this.index == index && next == null && IsReset()
    {
      this.index, next, fd, bound, interest := index, null, 0, false, 0;
    }

    predicate IsReset()
      reads this`fd, this`bound
    {
      fd == 0 && !bound
    }

    method Reset()
      modifies this`fd, this`bound
      ensures IsReset()
    {
      fd, bound := 0, false;
    }
  }

  ghost predicate NoDup(s: seq<nat>) {
    forall i, j | 0 <= i < j < |s| :: s[i] != s[j]
  }

  /** The free chain and the free list name exactly the free and the marked descriptors, each once. */
  ghost predicate Books(status: seq<Status>, chain: seq<nat>, marks: seq<nat>) {
    && NoDup(chain) && NoDup(marks)
    && (forall k | 0 <= k < |chain| :: chain[k] < |status| && status[chain[k]].Free?)
    && (forall k | 0 <= k < |marks| :: marks[k] < |status| && status[marks[k]].Marked?)
    && (forall i | 0 <= i < |status| && status[i].Free? :: i in chain)
    && (forall i | 0 <= i < |status| && status[i].Marked? :: i in marks)
  }

  lemma BooksGrown(status: seq<Status>, chain: seq<nat>, marks: seq<nat>)
    requires Books(status, chain, marks)
    ensures Books(status + [Free], [|status|] + chain, marks)
  {
    var t, c := status + [Free], [|status|] + chain;
    forall i | 0 <= i < |t| && t[i].Free? ensures i in c {
      if i < |status| { assert i in chain; }
    }
  }

  lemma BooksTaken(status: seq<Status>, chain: seq<nat>, marks: seq<nat>)
    requires Books(status, chain, marks) && chain != []
    ensures Books(status[chain[0] := InUse], chain[1..], marks)
  {
    var t := status[chain[0] := InUse];
    forall i | 0 <= i < |t| && t[i].Free? ensures i in chain[1..] {
      assert i in chain && i != chain[0];
    }
  }

  lemma BooksMarked(status: seq<Status>, chain: seq<nat>, marks: seq<nat>, i: nat)
    requires Books(status, chain, marks) && i < |status| && status[i].InUse?
    ensures Books(status[i := Marked], chain, marks + [i])
  {
    forall j | 0 <= j < |status| && status[i := Marked][j].Marked? ensures j in marks + [i] {
      if j != i { assert j in marks; }
    }
  }

  /** Resetting the first marked descriptor. */
  lemma BooksFreed(status: seq<Status>, chain: seq<nat>, marks: seq<nat>)
    requires Books(status, chain, marks) && marks != []
    ensures Books(status[marks[0] := Free], [marks[0]] + chain, marks[1..])
  {
    var t, c := status[marks[0] := Free], [marks[0]] + chain;
    forall i | 0 <= i < |t| && t[i].Free? ensures i in c {
      if i != marks[0] { assert i in chain; }
    }
    forall i | 0 <= i < |t| && t[i].Marked? ensures i in marks[1..] {
      assert i in marks && i != marks[0];
    }
  }

  lemma BooksRange(status: seq<Status>, chain: seq<nat>, marks: seq<nat>)
    requires Books(status, chain, marks)
    ensures forall k | 0 <= k < |chain| :: chain[k] < |status| && status[chain[k]].Free?
  {}

  lemma BooksHead(status: seq<Status>, chain: seq<nat>, marks: seq<nat>)
    requires Books(status, chain, marks) && marks != []
    ensures marks[0] < |status| && status[marks[0]].Marked?
  {}

  lemma MarksRange(status: seq<Status>, chain: seq<nat>, marks: seq<nat>)
    requires Books(status, chain, marks)
    ensures forall i | 0 <= i < |status| :: status[i].Marked? <==> i in marks
  {}

  class Cache {
    var first: Desc?
    var cache: seq<Desc>
    var freeList: seq<nat>
    ghost var status: seq<Status>
    ghost var chain: seq<nat>

    /** The chain links its descriptors in order. */
    ghost predicate Links()
      reads this, cache`next
    {
      && (forall k | 0 <= k < |chain| :: chain[k] < |cache|)
      && first == (if chain == [] then null else cache[chain[0]])
      && (forall k {:trigger cache[chain[k]].next} | 0 <= k < |chain| ::
            cache[chain[k]].next == if k + 1 < |chain| then cache[chain[k + 1]] else null)
    }

    twostate lemma Pushed(new i: nat)
      requires old(Links()) && i < |cache| && old(cache) <= cache && chain == [i] + old(chain)
      requires first == cache[i] && cache[i].next == old(first)
      requires forall k | 0 <= k < |old(chain)| :: cache[old(chain)[k]].next == old(cache[chain[k]].next)
      ensures Links()
    {
      forall k | 0 <= k < |chain|
        ensures chain[k] < |cache| && cache[chain[k]].next == if k + 1 < |chain| then cache[chain[k + 1]] else null
      {
        if k > 0 { assert chain[k] == old(chain)[k - 1]; }
      }
    }

    ghost predicate Valid()
      reads this, cache`next, cache`fd, cache`bound
    {
      Sound(freeList)
    }

    /** Every descriptor is free, in use, or one of these marked ones; the chain links the free ones, all reset. */
    ghost predicate Sound(marks: seq<nat>)
      reads this, cache`next, cache`fd, cache`bound
    {
      && |status| == |cache| && (forall i | 0 <= i < |cache| :: cache[i].index == i)
      && Books(status, chain, marks)
      && Links()
      && (forall i | 0 <= i < |cache| && status[i].Free? :: cache[i].IsReset())
    }

    ghost predicate Has(d: Desc, s: Status)
      reads this
    {
      d.index < |cache| == |status| && cache[d.index] == d && status[d.index] == s
    }

    constructor ()
      ensures Valid() && cache == [] && status == [] && freeList == []
    {
      first, cache, freeList, status, chain := null, [], [], [], [];
    }

    twostate lemma Grown(new pd: Desc)
      requires old(Valid()) && pd.index == |old(cache)| && pd.IsReset() && pd.next == old(first) && first == pd
      requires cache == old(cache) + [pd] && chain == [|old(cache)|] + old(chain) && status == old(status) + [Free]
      requires freeList == old(freeList) && forall e | e in old(cache) :: unchanged(e)
      ensures Valid()
    {
      hide Books, Links;
      BooksGrown(old(status), old(chain), freeList);
      BooksRange(old(status), old(chain), freeList);
      forall i | 0 <= i < |old(cache)| ensures unchanged(cache[i]) {
        assert old(cache)[i] in old(cache);
      }
      Pushed(pd.index);
    }

    /** Adds a new descriptor to the free chain. */
    method Grow()
      requires Valid()
      modifies this
      ensures Valid() && |cache| == |old(cache)| + 1 && cache[..|old(cache)|] == old(cache) &&
        fresh(cache[|old(cache)|])
      ensures status == old(status) + [Free] && freeList == old(freeList) && chain != []
    {
      hide Sound;
      var pd := new Desc(|cache|);
      pd.next := first;
      first := pd;
      cache, chain, status := cache + [pd], [|cache|] + chain, status + [Free];
      Grown(pd);
    }

    /** Takes a descriptor from the free chain, which is first extended by n if it is empty. */
    method Alloc(n: nat) returns (pd: Desc)
      requires Valid() && n > 0
      modifies this
      ensures Valid() && Has(pd, InUse) && pd.IsReset() && old(cache) <= cache && freeList == old(freeList)
      ensures fresh(pd) || old(Has(pd, Free))
      ensures forall i | 0 <= i < |old(cache)| && i != pd.index :: status[i] == old(status)[i]
      ensures forall i | |old(cache)| <= i < |cache| :: fresh(cache[i]) && (i != pd.index ==> status[i] == Free)
    {
      hide Books;
      if first == null {
        Extend(n);
      }
      hide Sound;
      pd := Take();
    }

    method Extend(n: nat)
      requires Valid() && n > 0
      modifies this
      ensures Valid() && first != null && old(cache) <= cache && freeList == old(freeList)
      ensures |status| == |cache| && old(status) <= status
      ensures forall j | |old(cache)| <= j < |cache| :: fresh(cache[j]) && status[j] == Free
    {
      hide Books, Sound;
      Sizes();
      for i := 0 to n
        invariant Valid() && old(cache) <= cache && freeList == old(freeList) && (i > 0 ==> chain != [])
        invariant old(status) <= status && |status| == |cache| == |old(cache)| + i && |old(status)| == |old(cache)|
        invariant forall j | |old(cache)| <= j < |cache| :: fresh(cache[j]) && status[j] == Free
      {
        Grow();
      }
      ChainStart();
    }

    lemma Sizes()
      requires Valid()
      ensures |status| == |cache| && forall i | 0 <= i < |cache| :: cache[i].index == i
    {}

    lemma ChainStart()
      requires Valid()
      ensures chain != [] <==> first != null
    {}

    method Take() returns (pd: Desc)
      requires Valid() && first != null
      modifies this`first, this`status, this`chain
      ensures Valid() && Has(pd, InUse) && old(Has(pd, Free)) && pd.IsReset() &&
        status == old(status)[pd.index := InUse]
    {
      BooksTaken(status, chain, freeList);
      hide Books;
      pd := first;
      first := pd.next;
      status, chain := status[chain[0] := InUse], chain[1..];
    }

    /** Marks a descriptor in use; it is not reset yet. */
    method MarkFree(pd: Desc)
      requires Valid() && Has(pd, InUse)
      modifies this`freeList, this`status
      ensures Valid() && Has(pd, Marked) && status == old(status)[pd.index := Marked]
      ensures freeList == old(freeList) + [pd.index]
    {
      BooksMarked(status, chain, freeList, pd.index);
      hide Books;
      freeList := freeList + [pd.index];
      status := status[pd.index := Marked];
    }

    twostate lemma Recycled(new marks: seq<nat>)
      requires old(Sound(marks)) && marks != [] && marks[0] < |cache| == |old(cache)|
      requires var pd := cache[marks[0]]; pd.IsReset() && pd.next == old(first) && first == pd
      requires cache == old(cache) && chain == [marks[0]] + old(chain) && status == old(status)[marks[0] := Free]
      requires forall e | e in cache && e != cache[marks[0]] :: unchanged(e)
      ensures Sound(marks[1..])
    {
      hide Books, Links;
      BooksFreed(old(status), old(chain), marks);
      BooksRange(old(status), old(chain), marks);
      BooksHead(old(status), old(chain), marks);
      forall i | 0 <= i < |cache| && i != marks[0] ensures unchanged(cache[i]) {
        assert cache[i] in cache;
      }
      Pushed(marks[0]);
    }

    /** Resets the next marked descriptor and puts it on the free chain. */
    method Recycle(i: nat, ghost marks: seq<nat>)
      requires Sound(marks) && marks != [] && marks[0] == i < |cache|
      modifies this`first, this`status, this`chain, cache[i]
      ensures Sound(marks[1..]) && status == old(status)[i := Free] && cache[i].IsReset()
    {
      InRange(marks);
      hide Sound;
      var pd := cache[i];
      pd.Reset();
      pd.next := first;
      first := pd;
      status, chain := status[i := Free], [i] + chain;
      Recycled(marks);
    }

    /** Resets all marked descriptors and makes them free; no other descriptor is touched. */
    method FreeAll()
      requires Valid()
      modifies this`first, this`status, this`chain, this`freeList, set d | d in cache && Has(d, Marked)
      ensures Valid() && freeList == [] && |status| == |old(status)|
      ensures forall i | 0 <= i < |status| :: status[i] == if old(status)[i].Marked? then Free else old(status)[i]
    {
      hide Books;
      MarksRange(status, chain, freeList);
      if |freeList| == 0 { return; }
      var list := freeList;
      RecycleLoop(list);
      freeList := [];
      assert list[|list|..] == [] && list[..|list|] == list;
    }

    method RecycleLoop(list: seq<nat>)
      requires Sound(list)
      modifies this`first, this`status, this`chain, set d | d in cache && Has(d, Marked)
      ensures Sound([]) && |status| == |old(status)|
      ensures forall i | 0 <= i < |status| :: status[i] == if i in list then Free else old(status)[i]
    {
      hide Books, Sound;
      InRange(list);
      for k := 0 to |list|
        invariant Sound(list[k..]) && |status| == |old(status)|
        invariant forall i | 0 <= i < |status| :: status[i] == if i in list[..k] then Free else old(status)[i]
      {
        assert Has(cache[list[k]], Marked) by { InRange(list[k..]); }
        Recycle(list[k], list[k..]);
        assert list[k..][1..] == list[k + 1..] && list[..k + 1] == list[..k] + [list[k]];
      }
      assert list[|list|..] == [] && list[..|list|] == list;
    }

    lemma InRange(marks: seq<nat>)
      requires Sound(marks)
      ensures |status| == |cache| && forall k | 0 <= k < |marks| :: marks[k] < |cache| && Has(cache[marks[k]], Marked)
    {}

    /** A descriptor in use may be written to without disturbing the others. */
    twostate lemma InUseWritten(new d: Desc)
      requires old(Valid()) && allocated(d) && unchanged(this) && Has(d, InUse)
      requires forall e | e in cache && e != d :: unchanged(e)
      ensures Valid()
    {
      hide Books;
      BooksRange(status, chain, freeList);
      forall i | 0 <= i < |cache| && i != d.index ensures unchanged(cache[i]) {
        assert cache[i] in cache;
      }
    }
  }
}
