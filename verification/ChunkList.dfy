/** The pool's growing list of chunks, each with its own bitset, updated in place under
    the chunks mutex.  Its two operations are the Acquire/Grow and Release events of the
    lifecycle. */
module ChunkLists {
  import opened Wrappers
  import opened FreeBitset
  import L = PoolLifecycle

  /** What find_or_alloc does to the free sets when it hands out x. */
  ghost predicate HandsOut(before: seq<set<nat>>, x: L.Slot, after: seq<set<nat>>) {
    if forall c :: 0 <= c < |before| ==> before[c] == {}
    then x == L.Slot(|before|, 0) && after == before + [ALL_PAIRS - {0}]
    else L.LeastFree(before, x) && after == before[x.chunk := before[x.chunk] - {x.pair}]
  }

  class ChunkList {
    var chunks: seq<Bitset>
    ghost var frees: seq<set<nat>>

    ghost function Repr(): set<object>
      reads this
    {
      {this} + (set c: Bitset | c in chunks :: c as object) + (set c: Bitset | c in chunks :: c.words as object)
    }

    ghost predicate Valid()
      reads this, Repr()
    {
      && |frees| == |chunks|
      && (forall i :: 0 <= i < |chunks| ==> chunks[i].Valid() && chunks[i].Free() == frees[i])
      && (forall i, j :: 0 <= i < j < |chunks| ==>
            chunks[i] != chunks[j] && chunks[i].words != chunks[j].words)
    }

    constructor ()
      ensures Valid() && fresh(Repr()) && frees == []
    {
      chunks, frees := [], [];
    }

    /** The first chunk with a free pair, if any. */
    method FirstWithFree() returns (i: nat)
      requires Valid()
      ensures i <= |chunks|
      ensures forall c :: 0 <= c < i ==> frees[c] == {}
      ensures i < |chunks| ==> frees[i] != {}
    {
      i := 0;
      while i < |chunks|
        invariant i <= |chunks|
        invariant forall c :: 0 <= c < i ==> frees[c] == {}
      {
        var any := chunks[i].AnyFree();
        if any { return; }
        i := i + 1;
      }
    }

    /** find_or_alloc.  created tells whether the driver would make a new query chunk. */
    method FindOrAlloc(created: bool) returns (r: Option<L.Slot>)
      requires Valid()
      modifies Repr()
      ensures Valid() && fresh(Repr() - old(Repr()))
      ensures r.None? <==> !created && forall c :: 0 <= c < |old(frees)| ==> old(frees)[c] == {}
      ensures r.None? ==> frees == old(frees)
      ensures r.Some? ==> HandsOut(old(frees), r.value, frees)
    {
      var i := FirstWithFree();
      if i < |chunks| {
        var x := TakeFromChunk(i);
        return Some(x);
      }
      if !created { return None; }
      var x := AddChunk();
      return Some(x);
    }

    /** The first half of find_or_alloc: a chunk with a free pair exists. */
    method TakeFromChunk(i: nat) returns (x: L.Slot)
      requires Valid()
      requires i < |chunks| && frees[i] != {}
      requires forall c :: 0 <= c < i ==> frees[c] == {}
      modifies Repr()
      ensures Valid() && Repr() == old(Repr())
      ensures HandsOut(old(frees), x, frees)
    {
      var query := chunks[i].AcquirePair();
      frees := frees[i := chunks[i].Free()];
      return L.Slot(i, query.value / 2);
    }

    /** The second half: every pair is taken, and a new chunk is pushed. */
    method AddChunk() returns (x: L.Slot)
      requires Valid()
      requires forall c :: 0 <= c < |frees| ==> frees[c] == {}
      modifies this
      ensures Valid() && fresh(Repr() - old(Repr()))
      ensures HandsOut(old(frees), x, frees)
    {
      var chunk := new Bitset.Full();
      var query := chunk.AcquirePair();
      assert 0 in ALL_PAIRS by { assert IsPair(0); }
      chunks := chunks + [chunk];
      frees := frees + [chunk.Free()];
      return L.Slot(|chunks| - 1, query.value / 2);
    }

    /** The reaper's release of a pair. */
    method Release(x: L.Slot)
      requires Valid()
      requires x.pair < PAIRS
      modifies Repr()
      ensures Valid() && Repr() == old(Repr())
      ensures frees == if x.chunk < |old(frees)|
                       then old(frees)[x.chunk := old(frees)[x.chunk] + {x.pair}] else old(frees)
    {
      if x.chunk < |chunks| {
        chunks[x.chunk].ReleasePair(2 * x.pair);
        frees := frees[x.chunk := chunks[x.chunk].Free()];
      }
    }
  }

  /** Handing out x is one event of the lifecycle, for every state of the rest of the pool. */
  lemma HandsOutIsAnEvent(s: L.Pool, t: L.Thread, x: L.Slot, after: seq<set<nat>>)
    requires t !in s.acquiring && HandsOut(s.frees, x, after)
    ensures var e := if L.Enabled(s, L.Grow(t)) then L.Grow(t) else L.Acquire(t, x);
            L.Enabled(s, e) && L.Apply(s, e) == s.(frees := after, acquiring := s.acquiring[t := x])
  {}

  /** And so is giving a pair back, once the reaper has waited for it. */
  lemma ReleaseIsAnEvent(s: L.Pool, x: L.Slot, after: seq<set<nat>>)
    requires s.reaper.Waited? && s.reaper.item.slot == x && x.chunk < |s.frees|
    requires after == s.frees[x.chunk := s.frees[x.chunk] + {x.pair}]
    ensures L.Enabled(s, L.Release) && L.Apply(s, L.Release) == s.(frees := after, reaper := L.Idle)
  {}
}
