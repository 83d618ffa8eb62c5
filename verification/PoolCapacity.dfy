/** How far the timestamp pool grows: the number of chunks is the peak demand in chunks. */
module PoolCapacity {
  import opened FreeBitset
  import opened PoolLifecycle

  ghost function ChunkSlots(c: nat): (r: set<Slot>)
    ensures forall x :: x in r <==> x.chunk == c && IsPair(x.pair)
  {
    assert forall x: Slot :: x.chunk == c && IsPair(x.pair) ==> x == Slot(c, x.pair) && x.pair in ALL_PAIRS;
    set p | p in ALL_PAIRS :: Slot(c, p)
  }

  ghost function Slots(n: nat): (r: set<Slot>)
    ensures forall x :: x in r <==> x.chunk < n && IsPair(x.pair)
  {
    if n == 0 then {} else Slots(n - 1) + ChunkSlots(n - 1)
  }

  /** The pairs that are out: in a thread's, a handle's, a queue's or the reaper's hands, or abandoned. */
  ghost function Outstanding(s: Pool): set<Slot> {
    set x | x in Slots(|s.frees|) && x.pair !in s.frees[x.chunk]
  }

  /** The most pairs that were out at once during a run. */
  ghost function Peak(es: seq<Event>): nat
    requires After(es).Some?
  {
    if es == [] then 0
    else
      var before, now := Peak(es[..|es| - 1]), |Outstanding(After(es).value)|;
      if now > before then now else before
  }

  lemma {:induction false} PairCount(s: set<nat>, n: nat)
    requires forall p: nat :: p in s <==> p < n
    ensures |s| == n
  {
    if n != 0 { PairCount(s - {n - 1}, n - 1); }
  }

  lemma {:induction false} ImageSize(c: nat, s: set<nat>)
    ensures |set p | p in s :: Slot(c, p)| == |s|
  {
    var image := set p | p in s :: Slot(c, p);
    if s != {} {
      var q :| q in s;
      ImageSize(c, s - {q});
      assert image == (set p | p in s - {q} :: Slot(c, p)) + {Slot(c, q)};
    }
  }

  lemma ChunkSize(c: nat)
    ensures |ChunkSlots(c)| == 256
  {
    assert forall p: nat :: IsPair(p) ==> p in ALL_PAIRS;
    forall p: nat ensures p in ALL_PAIRS <==> p < PAIRS { assert IsPair(p) <==> p < PAIRS; }
    PairCount(ALL_PAIRS, PAIRS);
    ImageSize(c, ALL_PAIRS);
  }

  lemma NextChunk(n: nat)
    ensures |Slots(n) + ChunkSlots(n)| == |Slots(n)| + 256
  {
    ChunkSize(n);
    UnionSize(Slots(n), ChunkSlots(n));
  }

  lemma {:induction false} SlotCount(n: nat)
    ensures |Slots(n)| == 256 * n
  {
    if n != 0 {
      var m := n - 1;
      SlotCount(m);
      NextChunk(m);
      calc {
        |Slots(n)|;
        |Slots(m) + ChunkSlots(m)|;
        |Slots(m)| + 256;
        256 * m + 256;
        256 * n;
      }
    }
  }

  lemma UnionSize(a: set<Slot>, b: set<Slot>)
    requires a !! b
    ensures |a + b| == |a| + |b|
  {}

  lemma {:induction false} SubsetSize(a: set<Slot>, b: set<Slot>)
    requires a <= b
    ensures |a| <= |b|
  {
    if a != {} {
      var x :| x in a;
      SubsetSize(a - {x}, b - {x});
    }
  }

  lemma OutstandingFits(s: Pool)
    ensures |Outstanding(s)| <= 256 * |s.frees|
  {
    SlotCount(|s.frees|);
    SubsetSize(Outstanding(s), Slots(|s.frees|));
  }

  /** A chunk is added only when every pair is out, and then one more pair is. */
  lemma OutAfterGrow(s: Pool, t: Thread)
    requires Enabled(s, Grow(t))
    ensures Outstanding(Apply(s, Grow(t))) == Slots(|s.frees|) + {Slot(|s.frees|, 0)}
  {
    var s', n := Apply(s, Grow(t)), |s.frees|;
    forall x ensures x in Outstanding(s') <==> x in Slots(n) + {Slot(n, 0)} {
      if x.chunk == n && IsPair(x.pair) { assert x.pair in ALL_PAIRS; }
    }
  }

  lemma GrowTakesOneMore(s: Pool, t: Thread)
    requires Enabled(s, Grow(t))
    ensures |Outstanding(Apply(s, Grow(t)))| == 256 * |s.frees| + 1
  {
    var n := |s.frees|;
    OutAfterGrow(s, t);
    UnionSize(Slots(n), {Slot(n, 0)});
    SlotCount(n);
  }

  lemma GrowsByOneAtMost(s: Pool, e: Event)
    requires Enabled(s, e)
    ensures |Apply(s, e).frees| == |s.frees| + if e.Grow? then 1 else 0
  {}

  /** The pool never holds more chunks than its peak demand needs: ceil(peak / 256). */
  lemma {:induction false} ChunkCountIsPeak(es: seq<Event>)
    requires After(es).Some?
    ensures |After(es).value.frees| == (Peak(es) + PAIRS - 1) / PAIRS
  {
    if es != [] {
      var n := |es| - 1;
      ChunkCountIsPeak(es[..n]);
      var s, s' := After(es[..n]).value, After(es).value;
      OutstandingFits(s');
      GrowsByOneAtMost(s, es[n]);
      if es[n].Grow? { GrowTakesOneMore(s, es[n].t); }
    }
  }
}
