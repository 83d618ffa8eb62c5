/** The life of timestamp pairs across app threads, the GPU and the reaper thread, as a
    transition system.  Every event is one critical section or one atomic operation of
    the pool, the handles, the submit path or the reaper. */
module PoolLifecycle {
  import opened Wrappers
  import opened FreeBitset

  type Thread = nat
  type HandleId = nat

  /** A pair of timestamp queries and the two command buffers recorded for it. */
  datatype Slot = Slot(chunk: nat, pair: nat)

  /** Where the submit path is with a handle it acquired. */
  datatype Phase = Recorded | Sent | Tracked

  /** A live Handle: wasSubmitted is its atomic flag, refs its reference count. */
  datatype Handle = Handle(slot: Slot, phase: Phase, wasSubmitted: bool, refs: nat)

  datatype Item = Item(slot: Slot, wasSubmitted: bool)

  datatype Reaper = Idle | Popped(item: Item) | Waited(item: Item)

  datatype Pool = Pool(
    frees: seq<set<nat>>,            // per chunk, the pairs its bitset says are free
    acquiring: map<Thread, Slot>,    // taken from a bitset, not yet recorded
    live: map<HandleId, Handle>,
    expiring: seq<Item>,
    reaper: Reaper,
    abandoned: set<Slot>,            // taken, but recording failed
    gpu: set<Slot>)                  // pairs whose command buffers are pending

  datatype Event =
    | Acquire(t: Thread, slot: Slot)
    | Grow(t: Thread)
    | RecordOk(t: Thread, h: HandleId)
    | RecordFail(t: Thread)
    | Submit(hs: set<HandleId>)
    | MarkSubmitted(h: HandleId)
    | Clone(h: HandleId)
    | Unref(h: HandleId)
    | GpuDone(slot: Slot)
    | Pop
    | WaitEnd
    | Release

  // ----- Pairs

  /** The lexicographically least free pair, which is what find_or_alloc hands out. */
  ghost predicate LeastFree(frees: seq<set<nat>>, x: Slot) {
    && x.chunk < |frees|
    && IsLowest(frees[x.chunk], x.pair)
    && forall c :: 0 <= c < x.chunk ==> frees[c] == {}
  }

  ghost predicate IsSlot(s: Pool, x: Slot) { x.chunk < |s.frees| && x.pair < PAIRS }

  // ----- Steps

  ghost predicate Enabled(s: Pool, e: Event) {
    match e
    case Acquire(t, x) => t !in s.acquiring && LeastFree(s.frees, x)
    case Grow(t) => t !in s.acquiring && forall c :: 0 <= c < |s.frees| ==> s.frees[c] == {}
    case RecordOk(t, h) => t in s.acquiring && h !in s.live
    case RecordFail(t) => t in s.acquiring
    case Submit(hs) => forall h :: h in hs ==> h in s.live && s.live[h].phase.Recorded?
    case MarkSubmitted(h) => h in s.live && s.live[h].phase.Sent?
    case Clone(h) => h in s.live && s.live[h].phase.Tracked?
    case Unref(h) => h in s.live && !s.live[h].phase.Sent?
    case GpuDone(x) => x in s.gpu
    case Pop => s.reaper.Idle? && s.expiring != []
    // GetQueryPoolResults(WAIT) on the end query returns only once the GPU wrote it.
    case WaitEnd => s.reaper.Popped? && (s.reaper.item.wasSubmitted ==> s.reaper.item.slot !in s.gpu)
    case Release => s.reaper.Waited? && s.reaper.item.slot.chunk < |s.frees|
  }

  ghost function Apply(s: Pool, e: Event): Pool
    requires Enabled(s, e)
  {
    match e
    case Acquire(t, x) =>
      s.(frees := s.frees[x.chunk := s.frees[x.chunk] - {x.pair}], acquiring := s.acquiring[t := x])
    case Grow(t) =>
      s.(frees := s.frees + [ALL_PAIRS - {0}], acquiring := s.acquiring[t := Slot(|s.frees|, 0)])
    case RecordOk(t, h) =>
      s.(acquiring := s.acquiring - {t}, live := s.live[h := Handle(s.acquiring[t], Recorded, false, 1)])
    case RecordFail(t) =>
      s.(acquiring := s.acquiring - {t}, abandoned := s.abandoned + {s.acquiring[t]})
    case Submit(hs) =>
      s.(live := map h | h in s.live :: if h in hs then s.live[h].(phase := Sent) else s.live[h],
         gpu := s.gpu + set h | h in hs :: s.live[h].slot)
    case MarkSubmitted(h) => s.(live := s.live[h := s.live[h].(phase := Tracked, wasSubmitted := true)])
    case Clone(h) => s.(live := s.live[h := s.live[h].(refs := s.live[h].refs + 1)])
    case Unref(h) =>
      var v := s.live[h];
      if v.refs > 1 then s.(live := s.live[h := v.(refs := v.refs - 1)])
      else s.(live := s.live - {h}, expiring := s.expiring + [Item(v.slot, v.wasSubmitted)])
    case GpuDone(x) => s.(gpu := s.gpu - {x})
    case Pop => s.(expiring := s.expiring[1..], reaper := Popped(s.expiring[0]))
    case WaitEnd => s.(reaper := Waited(s.reaper.item))
    case Release =>
      var x := s.reaper.item.slot;
      s.(frees := s.frees[x.chunk := s.frees[x.chunk] + {x.pair}], reaper := Idle)
  }

  const START: Pool := Pool([], map[], map[], [], Idle, {}, {})

  /** The state after a run, or None when some event was not possible. */
  ghost function After(es: seq<Event>): Option<Pool> {
    if es == [] then Some(START)
    else
      var before := After(es[..|es| - 1]);
      if before.Some? && Enabled(before.value, es[|es| - 1])
      then Some(Apply(before.value, es[|es| - 1])) else None
  }

  /** Every prefix of a run is a run, and its next event was possible. */
  lemma {:induction false} PrefixRuns(es: seq<Event>, p: nat)
    requires After(es).Some? && p <= |es|
    ensures After(es[..p]).Some?
    ensures p < |es| ==> Enabled(After(es[..p]).value, es[p])
  {
    if p == |es| {
      assert es[..p] == es;
    } else if p < |es| - 1 {
      assert es[..|es| - 1][..p] == es[..p];
      PrefixRuns(es[..|es| - 1], p);
    }
  }

  // ----- Who holds a pair

  datatype Owner =
    | Bitset
    | Acquirer(t: Thread)
    | LiveHandle(h: HandleId)
    | Queued(i: nat)
    | ReaperThread
    | Abandoned

  ghost predicate Holds(s: Pool, o: Owner, x: Slot) {
    match o
    case Bitset => x.chunk < |s.frees| && x.pair in s.frees[x.chunk]
    case Acquirer(t) => t in s.acquiring && s.acquiring[t] == x
    case LiveHandle(h) => h in s.live && s.live[h].slot == x
    case Queued(i) => i < |s.expiring| && s.expiring[i].slot == x
    case ReaperThread => !s.reaper.Idle? && s.reaper.item.slot == x
    case Abandoned => x in s.abandoned
  }

  ghost predicate ExactlyOneOwner(s: Pool) {
    && (forall x :: IsSlot(s, x) ==> exists o :: Holds(s, o, x))
    && (forall o, x :: Holds(s, o, x) ==> IsSlot(s, x))
    && (forall o1, o2, x :: Holds(s, o1, x) && Holds(s, o2, x) ==> o1 == o2)
  }

  /** The owner after e of a pair that o holds before e. */
  ghost function OwnerAfter(s: Pool, e: Event, o: Owner, x: Slot): Owner
    requires Enabled(s, e)
  {
    match e
    case Acquire(t, y) => if x == y then Acquirer(t) else o
    case RecordOk(t, h) => if o == Acquirer(t) then LiveHandle(h) else o
    case RecordFail(t) => if o == Acquirer(t) then Abandoned else o
    case Unref(h) => if o == LiveHandle(h) && s.live[h].refs <= 1 then Queued(|s.expiring|) else o
    case Pop => if o.Queued? then (if o.i == 0 then ReaperThread else Queued(o.i - 1)) else o
    case Release => if o == ReaperThread then Bitset else o
    case _ => o
  }

  ghost predicate AtMostOneOwner(s: Pool, x: Slot) {
    forall o1, o2 :: Holds(s, o1, x) && Holds(s, o2, x) ==> o1 == o2
  }

  lemma OwnerMoves(s: Pool, e: Event, o: Owner, x: Slot)
    requires Enabled(s, e) && Holds(s, o, x) && AtMostOneOwner(s, x)
    ensures Holds(Apply(s, e), OwnerAfter(s, e, o, x), x)
  {
    if e.Acquire? { assert Holds(s, Bitset, e.slot); }
  }

  /** The owner before e of a pair that o' holds after e. */
  ghost function OwnerBefore(s: Pool, e: Event, o': Owner, x: Slot): Owner
    requires Enabled(s, e)
  {
    match e
    case Acquire(t, y) => if o' == Acquirer(t) then Bitset else o'
    case RecordOk(t, h) => if o' == LiveHandle(h) then Acquirer(t) else o'
    case RecordFail(t) => if o' == Abandoned && x !in s.abandoned then Acquirer(t) else o'
    case Unref(h) => if o' == Queued(|s.expiring|) then LiveHandle(h) else o'
    case Pop => if o' == ReaperThread then Queued(0) else if o'.Queued? then Queued(o'.i + 1) else o'
    case Release => if o' == Bitset && !Holds(s, Bitset, x) then ReaperThread else o'
    case _ => o'
  }

  lemma OwnerCameFrom(s: Pool, e: Event, o': Owner, x: Slot)
    requires Enabled(s, e) && Holds(Apply(s, e), o', x) && AtMostOneOwner(s, x)
    requires e.Grow? ==> x.chunk < |s.frees|
    ensures Holds(s, OwnerBefore(s, e, o', x), x)
    ensures OwnerAfter(s, e, OwnerBefore(s, e, o', x), x) == o'
  {
    if e.Acquire? {
      assert Holds(s, Bitset, e.slot);
      assert Holds(s, OwnerBefore(s, e, o', x), x);
    }
  }

  /** A new chunk's pairs: the first goes to the thread that grew the pool, the others are free. */
  lemma OwnersOfNewChunk(s: Pool, t: Thread, o': Owner, x: Slot)
    requires Enabled(s, Grow(t)) && ExactlyOneOwner(s) && x.chunk >= |s.frees|
    ensures Holds(Apply(s, Grow(t)), o', x) <==>
              x.chunk == |s.frees| && x.pair < PAIRS && o' == if x.pair == 0 then Acquirer(t) else Bitset
  {
    assert Holds(s, o', x) ==> false;
  }

  lemma OwnershipKept(s: Pool, e: Event)
    requires Enabled(s, e) && ExactlyOneOwner(s)
    ensures ExactlyOneOwner(Apply(s, e))
  {
    var s' := Apply(s, e);
    forall x | IsSlot(s', x) ensures exists o :: Holds(s', o, x) {
      if IsSlot(s, x) {
        var o :| Holds(s, o, x);
        OwnerMoves(s, e, o, x);
      } else {
        OwnersOfNewChunk(s, e.t, if x.pair == 0 then Acquirer(e.t) else Bitset, x);
      }
    }
    forall o', x | Holds(s', o', x)
      ensures IsSlot(s', x)
    {
      if e.Grow? && x.chunk >= |s.frees| { OwnersOfNewChunk(s, e.t, o', x); }
      else { OwnerCameFrom(s, e, o', x); }
    }
    forall o1, o2, x | Holds(s', o1, x) && Holds(s', o2, x) ensures o1 == o2 {
      if e.Grow? && x.chunk >= |s.frees| {
        OwnersOfNewChunk(s, e.t, o1, x);
        OwnersOfNewChunk(s, e.t, o2, x);
      } else {
        OwnerCameFrom(s, e, o1, x);
        OwnerCameFrom(s, e, o2, x);
      }
    }
  }

  // ----- What the GPU may still be using

  /** Owners that know the pair was submitted, so that it will be waited for. */
  ghost predicate Carries(s: Pool, o: Owner) {
    match o
    case LiveHandle(h) => h in s.live && !s.live[h].phase.Recorded?
    case Queued(i) => i < |s.expiring| && s.expiring[i].wasSubmitted
    case ReaperThread => s.reaper.Popped? && s.reaper.item.wasSubmitted
    case _ => false
  }

  ghost predicate CountedOk(v: Handle) {
    if v.phase.Tracked? then v.wasSubmitted && v.refs >= 1 else !v.wasSubmitted && v.refs == 1
  }

  ghost predicate PendingCarried(s: Pool) {
    && (forall h :: h in s.live ==> CountedOk(s.live[h]))
    && (forall x :: x in s.gpu ==> exists o :: Holds(s, o, x) && Carries(s, o))
  }

  lemma CarrierKept(s: Pool, e: Event, x: Slot, o: Owner)
    requires Enabled(s, e) && AtMostOneOwner(s, x)
    requires forall h :: h in s.live ==> CountedOk(s.live[h])
    requires Holds(s, o, x) && Carries(s, o) && x in s.gpu
    requires e != GpuDone(x)
    ensures Holds(Apply(s, e), OwnerAfter(s, e, o, x), x)
    ensures Carries(Apply(s, e), OwnerAfter(s, e, o, x))
  {
    OwnerMoves(s, e, o, x);
    if e.Acquire? { assert Holds(s, Bitset, e.slot); }
  }

  lemma PendingKept(s: Pool, e: Event)
    requires Enabled(s, e) && ExactlyOneOwner(s) && PendingCarried(s)
    ensures PendingCarried(Apply(s, e))
  {
    var s' := Apply(s, e);
    forall x | x in s'.gpu ensures exists o :: Holds(s', o, x) && Carries(s', o) {
      if x in s.gpu {
        var o :| Holds(s, o, x) && Carries(s, o);
        CarrierKept(s, e, x, o);
      } else {
        var h :| h in e.hs && s.live[h].slot == x;
        assert Holds(s', LiveHandle(h), x) && Carries(s', LiveHandle(h));
      }
    }
  }

  // ----- Every run

  lemma {:induction false} Invariants(es: seq<Event>)
    requires After(es).Some?
    ensures ExactlyOneOwner(After(es).value) && PendingCarried(After(es).value)
  {
    if es != [] {
      var n := |es| - 1;
      Invariants(es[..n]);
      OwnershipKept(After(es[..n]).value, es[n]);
      PendingKept(After(es[..n]).value, es[n]);
    }
  }

  /** In every reachable state each pair is in exactly one place, no two live handles share
      a pair, and the reaper's next release hits an existing chunk and a pair that is not free. */
  lemma PairsHaveOneOwner(es: seq<Event>)
    requires After(es).Some?
    ensures var s := After(es).value;
            && ExactlyOneOwner(s)
            && (forall g, h :: g in s.live && h in s.live && g != h ==> s.live[g].slot != s.live[h].slot)
            && (!s.reaper.Idle? ==>
                  var x := s.reaper.item.slot;
                  IsSlot(s, x) && x.pair !in s.frees[x.chunk])
  {
    Invariants(es);
    var s := After(es).value;
    forall g, h | g in s.live && h in s.live && g != h ensures s.live[g].slot != s.live[h].slot {
      assert Holds(s, LiveHandle(g), s.live[g].slot);
      assert Holds(s, LiveHandle(h), s.live[h].slot);
    }
    if !s.reaper.Idle? {
      var x := s.reaper.item.slot;
      assert Holds(s, ReaperThread, x);
      assert Holds(s, Bitset, x) ==> false;
    }
  }

  /** No event of any run hands out, re-records, gives up, submits again or frees a pair
      whose command buffers are pending on the GPU. */
  lemma PendingPairsAreLeftAlone(es: seq<Event>, e: Event)
    requires After(es).Some? && Enabled(After(es).value, e)
    ensures var s := After(es).value;
            match e
            case Acquire(t, x) => x !in s.gpu
            case Grow(t) => Slot(|s.frees|, 0) !in s.gpu
            case RecordOk(t, h) => s.acquiring[t] !in s.gpu
            case RecordFail(t) => s.acquiring[t] !in s.gpu
            case Submit(hs) => forall h :: h in hs ==> s.live[h].slot !in s.gpu
            case Release => s.reaper.item.slot !in s.gpu
            case _ => true
  {
    Invariants(es);
    var s := After(es).value;
    match e
    case Acquire(t, x) => NotPending(s, Bitset, x);
    case Grow(t) =>
    case RecordOk(t, h) => NotPending(s, Acquirer(t), s.acquiring[t]);
    case RecordFail(t) => NotPending(s, Acquirer(t), s.acquiring[t]);
    case Submit(hs) =>
      forall h | h in hs ensures s.live[h].slot !in s.gpu { NotPending(s, LiveHandle(h), s.live[h].slot); }
    case Release => NotPending(s, ReaperThread, s.reaper.item.slot);
    case _ =>
  }

  lemma NotPending(s: Pool, o: Owner, x: Slot)
    requires ExactlyOneOwner(s) && PendingCarried(s)
    requires Holds(s, o, x) && !Carries(s, o)
    ensures x !in s.gpu
  {}

  /** The pair a thread has taken but not recorded yet. */
  ghost predicate TookFree(es: seq<Event>, q: nat, t: Thread, x: Slot) {
    && q < |es| && After(es[..q]).Some?
    && var s := After(es[..q]).value;
       (es[q] == Acquire(t, x) && Holds(s, Bitset, x)) || (es[q] == Grow(t) && x == Slot(|s.frees|, 0))
  }

  /** At the end of the run t alone holds x, and it took it when it was free or the first of a
      new chunk. */
  ghost predicate WasFree(es: seq<Event>, t: Thread, x: Slot) {
    && After(es).Some?
    && (forall o :: Holds(After(es).value, o, x) <==> o == Acquirer(t))
    && exists q :: TookFree(es, q, t, x)
  }

  lemma {:induction false} Took(es: seq<Event>, t: Thread) returns (q: nat)
    requires After(es).Some? && t in After(es).value.acquiring
    ensures TookFree(es, q, t, After(es).value.acquiring[t])
  {
    var n := |es| - 1;
    PrefixRuns(es, n);
    if t in After(es[..n]).value.acquiring {
      q := Took(es[..n], t);
      assert es[..n][..q] == es[..q];
    } else {
      q := n;
    }
  }

  lemma AcquiredWhenFree(es: seq<Event>, t: Thread)
    requires After(es).Some? && t in After(es).value.acquiring
    ensures WasFree(es, t, After(es).value.acquiring[t])
  {
    Invariants(es);
    var q := Took(es, t);
    assert Holds(After(es).value, Acquirer(t), After(es).value.acquiring[t]);
  }

  /** Once every handle is dropped and reaped, exactly the pairs whose recording failed are missing. */
  lemma OnlyAbandonedPairsLeak(es: seq<Event>)
    requires After(es).Some?
    requires var s := After(es).value;
             s.acquiring == map[] && s.live == map[] && s.expiring == [] && s.reaper.Idle?
    ensures var s := After(es).value;
            forall x :: IsSlot(s, x) ==> (x.pair !in s.frees[x.chunk] <==> x in Failures(es))
  {
    Invariants(es);
    AbandonedHaveFailed(es);
    var s := After(es).value;
    forall x | IsSlot(s, x) ensures x.pair !in s.frees[x.chunk] <==> x in s.abandoned {
      var o :| Holds(s, o, x);
      assert o == Bitset || o == Abandoned;
      assert x in s.abandoned ==> Holds(s, Abandoned, x);
      assert x.pair in s.frees[x.chunk] ==> Holds(s, Bitset, x);
    }
  }

  // ----- What the state stands for

  /** The pairs whose recording failed in the run. */
  ghost function Failures(es: seq<Event>): set<Slot>
    requires After(es).Some?
  {
    if es == [] then {}
    else
      var before, last := After(es[..|es| - 1]).value, es[|es| - 1];
      Failures(es[..|es| - 1]) + if last.RecordFail? then {before.acquiring[last.t]} else {}
  }

  lemma {:induction false} AbandonedHaveFailed(es: seq<Event>)
    requires After(es).Some?
    ensures After(es).value.abandoned == Failures(es)
  {
    if es != [] { AbandonedHaveFailed(es[..|es| - 1]); }
  }

  /** The pair was submitted in the run, and the GPU has not finished with it since. */
  ghost predicate SubmittedAndNotDone(es: seq<Event>, x: Slot)
    requires After(es).Some?
  {
    if es == [] then false
    else
      var before, last := After(es[..|es| - 1]).value, es[|es| - 1];
      || (last.Submit? && exists h :: h in last.hs && h in before.live && before.live[h].slot == x)
      || (SubmittedAndNotDone(es[..|es| - 1], x) && last != GpuDone(x))
  }

  lemma {:induction false} PendingSinceSubmit(es: seq<Event>, x: Slot)
    requires After(es).Some?
    ensures x in After(es).value.gpu <==> SubmittedAndNotDone(es, x)
  {
    if es != [] { PendingSinceSubmit(es[..|es| - 1], x); }
  }

  /** References to a handle: the one it was made with, one more for each clone, one less for each
      given up since. */
  ghost function References(es: seq<Event>, h: HandleId): int {
    if es == [] then 0
    else
      var before := References(es[..|es| - 1], h);
      match es[|es| - 1]
      case RecordOk(_, g) => if g == h then 1 else before
      case Clone(g) => if g == h then before + 1 else before
      case Unref(g) => if g == h then before - 1 else before
      case _ => before
  }

  /** A handle lives exactly as long as there are references to it. */
  lemma {:induction false} LivesWhileReferenced(es: seq<Event>, h: HandleId)
    requires After(es).Some?
    ensures h in After(es).value.live <==> References(es, h) > 0
    ensures h in After(es).value.live ==> After(es).value.live[h].refs == References(es, h)
    ensures References(es, h) >= 0
  {
    if es != [] { LivesWhileReferenced(es[..|es| - 1], h); }
  }
}
