/** vkQueueSubmit and vkQueueSubmit2: wrapping the submits of a batch with timestamp command
    buffers, the fallback when the pool has no pair left, and the bookkeeping afterwards.
    C is the element type of a submit's command buffer list: the handle itself for
    vkQueueSubmit, an info record around it for vkQueueSubmit2. */
module SubmitInjection {
  import opened Wrappers
  import L = PoolLifecycle

  type PresentId = nat

  /** A command buffer: one of those a query chunk allocated, or any other. */
  datatype CommandBuffer = Pooled(chunk: nat, query: nat) | Other(n: nat)

  /** A timestamp handle, and the two command buffers recorded for its pair. */
  datatype Handle = Handle(id: L.HandleId, slot: L.Slot) {
    function StartCb(): CommandBuffer { Pooled(slot.chunk, 2 * slot.pair) }

    function EndCb(): CommandBuffer { Pooled(slot.chunk, 2 * slot.pair + 1) }
  }

  /** One submit: what its pNext says about the present, its command buffers, all the rest. */
  datatype Submit<C> = Submit(tag: Option<PresentId>, cbs: seq<C>, rest: nat)

  const SUCCESS: int := 0

  /** A step of the bookkeeping after a submit: was_submitted is set, or the strategy is told. */
  datatype Deed = Marked(h: Handle) | Noticed(tag: Option<PresentId>, h: Handle)

  /** Everything one call does. */
  datatype Outcome<C> = Outcome(
    calls: seq<seq<Submit<C>>>,    // arrays handed to the driver, in order
    deeds: seq<Deed>,              // bookkeeping after the driver call, in order
    dropped: seq<Handle>,          // released without being marked
    injectedCount: Option<nat>,    // telemetry, if recorded
    result: int)

  // ----- What the call is meant to do

  ghost function Count(mask: seq<bool>): nat {
    if mask == [] then 0 else Count(mask[..|mask| - 1]) + if mask[|mask| - 1] then 1 else 0
  }

  ghost function Somes(hs: seq<Option<Handle>>): seq<Handle> {
    if hs == [] then []
    else Somes(hs[..|hs| - 1]) + match hs[|hs| - 1] case Some(h) => [h] case None => []
  }

  datatype Acquired = Ok(handles: seq<Option<Handle>>) | Failed(before: seq<Handle>)

  /** One acquire per submit to be injected, in order, until one fails. */
  ghost function AcquireAll(mask: seq<bool>, acquire: nat -> Option<Handle>): (r: Acquired)
    ensures r.Ok? ==> |r.handles| == |mask| && forall i :: 0 <= i < |mask| ==> r.handles[i].Some? == mask[i]
  {
    if mask == [] then Ok([])
    else
      var n := |mask| - 1;
      var r := AcquireAll(mask[..n], acquire);
      if r.Failed? then r
      else if !mask[n] then Ok(r.handles + [None])
      else match acquire(Count(mask[..n]))
        case Some(h) => Ok(r.handles + [Some(h)])
        case None => Failed(Somes(r.handles))
  }

  function Wrapped<C>(s: Submit<C>, h: Option<Handle>, info: CommandBuffer -> C): Submit<C> {
    match h
    case None => s
    case Some(v) => s.(cbs := [info(v.StartCb())] + s.cbs + [info(v.EndCb())])
  }

  ghost function AllWrapped<C>(ss: seq<Submit<C>>, hs: seq<Option<Handle>>, info: CommandBuffer -> C)
    : (r: seq<Submit<C>>)
    requires |ss| == |hs|
    ensures |r| == |ss| && forall i :: 0 <= i < |r| ==> r[i] == Wrapped(ss[i], hs[i], info)
  {
    seq(|ss|, i requires 0 <= i < |ss| => Wrapped(ss[i], hs[i], info))
  }

  /** Each injected submit's handle is marked, then goes to the strategy with the submit's tag. */
  ghost function Deeds<C>(ss: seq<Submit<C>>, hs: seq<Option<Handle>>): seq<Deed>
    requires |ss| == |hs|
  {
    if ss == [] then []
    else
      var n := |ss| - 1;
      Deeds(ss[..n], hs[..n]) + match hs[n] case Some(h) => [Marked(h), Noticed(ss[n].tag, h)] case None => []
  }

  /** The driver is called exactly once, with the wrapped batch or the caller's own array. */
  ghost predicate Correct<C>(ss: seq<Submit<C>>, mask: seq<bool>, acquire: nat -> Option<Handle>,
                             info: CommandBuffer -> C, driver: seq<Submit<C>> -> int, o: Outcome<C>)
    requires |ss| == |mask|
  {
    match AcquireAll(mask, acquire)
    case Failed(before) =>
      o == Outcome([ss], [], before, None, driver(ss))
    case Ok(hs) =>
      var batch := AllWrapped(ss, hs, info);
      if ss == [] then o == Outcome([ss], [], [], None, driver(ss))
      else if true !in mask then o == Outcome([ss], [], [], Some(0), driver(ss))
      else if driver(batch) != SUCCESS then o == Outcome([batch], [], Somes(hs), None, driver(batch))
      else o == Outcome([batch], Deeds(ss, hs), [], Some(|Somes(hs)|), SUCCESS)
  }

  method QueueSubmit<C>(ss: seq<Submit<C>>, mask: seq<bool>, acquire: nat -> Option<Handle>,
                        info: CommandBuffer -> C, driver: seq<Submit<C>> -> int) returns (o: Outcome<C>)
    requires |ss| == |mask|
    ensures Correct(ss, mask, acquire, info, driver, o)
  {
    if ss == [] { return Outcome([ss], [], [], None, driver(ss)); }
    if true !in mask {
      NothingToAcquire(mask, acquire);
      return Outcome([ss], [], [], Some(0), driver(ss));
    }
    var all, handles, taken, next := Inject(ss, mask, acquire, info);
    if !all { return Outcome([ss], [], taken, None, driver(ss)); }
    var r := driver(next);
    if r != SUCCESS { return Outcome([next], [], taken, None, r); }
    var deeds, injected := Bookkeep(ss, handles);
    return Outcome([next], deeds, [], Some(injected), SUCCESS);
  }

  lemma SomesNext(hs: seq<Option<Handle>>, h: Option<Handle>)
    ensures Somes(hs + [h]) == Somes(hs) + match h case Some(v) => [v] case None => []
  {
    assert (hs + [h])[..|hs|] == hs;
  }

  lemma CountNext(mask: seq<bool>, i: nat)
    requires i < |mask|
    ensures Count(mask[..i + 1]) == Count(mask[..i]) + if mask[i] then 1 else 0
  {
    assert mask[..i + 1][..i] == mask[..i];
  }

  /** What has been acquired after one more submit, or that the batch has failed. */
  lemma NextAcquire(mask: seq<bool>, i: nat, acquire: nat -> Option<Handle>, handles: seq<Option<Handle>>)
    requires i < |mask| && AcquireAll(mask[..i], acquire) == Ok(handles)
    ensures !mask[i] ==> AcquireAll(mask[..i + 1], acquire) == Ok(handles + [None])
    ensures mask[i] ==>
              match acquire(Count(mask[..i]))
              case Some(h) => AcquireAll(mask[..i + 1], acquire) == Ok(handles + [Some(h)])
              case None => AcquireAll(mask, acquire) == Failed(Somes(handles))
  {
    assert mask[..i + 1][..i] == mask[..i];
    if mask[i] && acquire(Count(mask[..i])).None? { FailureStays(mask, i + 1, acquire); }
  }

  lemma WrapMore<C>(ss: seq<Submit<C>>, i: nat, hs: seq<Option<Handle>>, h: Option<Handle>, info: CommandBuffer -> C)
    requires i == |hs| < |ss|
    ensures AllWrapped(ss[..i + 1], hs + [h], info) == AllWrapped(ss[..i], hs, info) + [Wrapped(ss[i], h, info)]
  {}

  /** A submit with the handle's command buffers around its own. */
  method Wrap<C>(s: Submit<C>, h: Handle, info: CommandBuffer -> C) returns (next: Submit<C>)
    ensures next == Wrapped(s, Some(h), info)
  {
    var cbs := [info(h.StartCb())];
    cbs := cbs + s.cbs;
    cbs := cbs + [info(h.EndCb())];
    next := s.(cbs := cbs);
  }

  /** The injection loop: stops at the first acquire that fails. */
  method Inject<C>(ss: seq<Submit<C>>, mask: seq<bool>, acquire: nat -> Option<Handle>, info: CommandBuffer -> C)
    returns (all: bool, handles: seq<Option<Handle>>, taken: seq<Handle>, next: seq<Submit<C>>)
    requires |ss| == |mask|
    ensures AcquireAll(mask, acquire) == if all then Ok(handles) else Failed(taken)
    ensures all ==> taken == Somes(handles) && next == AllWrapped(ss, handles, info)
  {
    handles, taken, next := [], [], [];
    var i := 0;
    while i < |ss|
      invariant 0 <= i <= |ss| && |handles| == i
      invariant AcquireAll(mask[..i], acquire) == Ok(handles)
      invariant taken == Somes(handles) && |taken| == Count(mask[..i])
      invariant next == AllWrapped(ss[..i], handles, info)
    {
      NextAcquire(mask, i, acquire, handles);
      CountNext(mask, i);
      if !mask[i] {
        SomesNext(handles, None);
        WrapMore(ss, i, handles, None, info);
        next := next + [ss[i]];
        handles := handles + [None];
      } else {
        var handle := acquire(|taken|);
        if handle.None? { return false, handles, taken, next; }
        SomesNext(handles, handle);
        WrapMore(ss, i, handles, handle, info);
        var wrapped := Wrap(ss[i], handle.value, info);
        next := next + [wrapped];
        handles := handles + [handle];
        taken := taken + [handle.value];
      }
      i := i + 1;
    }
    assert mask[..i] == mask && ss[..i] == ss;
    all := true;
  }

  /** After a successful submit: mark each handle, then hand it to the strategy. */
  method Bookkeep<C>(ss: seq<Submit<C>>, handles: seq<Option<Handle>>) returns (deeds: seq<Deed>, injected: nat)
    requires |ss| == |handles|
    ensures deeds == Deeds(ss, handles) && injected == |Somes(handles)|
  {
    deeds, injected := [], 0;
    var i := 0;
    while i < |ss|
      invariant 0 <= i <= |ss|
      invariant deeds == Deeds(ss[..i], handles[..i]) && injected == |Somes(handles[..i])|
    {
      assert handles[..i + 1][..i] == handles[..i] && ss[..i + 1][..i] == ss[..i];
      if handles[i].Some? {
        injected := injected + 1;
        deeds := deeds + [Marked(handles[i].value)] + [Noticed(ss[i].tag, handles[i].value)];
      }
      i := i + 1;
    }
    assert handles[..i] == handles && ss[..i] == ss;
  }

  lemma {:induction false} NothingToAcquire(mask: seq<bool>, acquire: nat -> Option<Handle>)
    requires true !in mask
    ensures AcquireAll(mask, acquire).Ok?
  {
    if mask != [] { NothingToAcquire(mask[..|mask| - 1], acquire); }
  }

  lemma {:induction false} FailureStays(mask: seq<bool>, i: nat, acquire: nat -> Option<Handle>)
    requires i <= |mask| && AcquireAll(mask[..i], acquire).Failed?
    ensures AcquireAll(mask, acquire) == AcquireAll(mask[..i], acquire)
    decreases |mask|
  {
    if i < |mask| {
      assert mask[..|mask| - 1][..i] == mask[..i];
      FailureStays(mask[..|mask| - 1], i, acquire);
    } else {
      assert mask[..i] == mask;
    }
  }

  // ----- What that means for the application

  /** A list of command buffers without the layer's own. */
  ghost function Stripped<C(!new)>(cbs: seq<C>, layers: iset<C>): seq<C> {
    if cbs == [] then []
    else Stripped(cbs[..|cbs| - 1], layers) + if cbs[|cbs| - 1] in layers then [] else [cbs[|cbs| - 1]]
  }

  lemma {:induction false} StrippedOfUser<C(!new)>(cbs: seq<C>, layers: iset<C>)
    requires forall c :: c in cbs ==> c !in layers
    ensures Stripped(cbs, layers) == cbs
  {
    if cbs != [] { StrippedOfUser(cbs[..|cbs| - 1], layers); }
  }

  lemma {:induction false} StrippedOfFront<C(!new)>(c: C, cbs: seq<C>, layers: iset<C>)
    requires c in layers
    ensures Stripped([c] + cbs, layers) == Stripped(cbs, layers)
  {
    var all := [c] + cbs;
    if cbs == [] {
      assert all[..|all| - 1] == [];
    } else {
      StrippedOfFront(c, cbs[..|cbs| - 1], layers);
      assert all[..|all| - 1] == [c] + cbs[..|cbs| - 1];
    }
  }

  /** The command buffers that chunks allocate, as they appear in submits. */
  ghost function LayerBuffers<C(!new)>(info: CommandBuffer -> C): iset<C> {
    iset c: nat, q: nat :: info(Pooled(c, q))
  }

  lemma {:induction false} StrippedOfBoth<C(!new)>(c: C, cbs: seq<C>, d: C, layers: iset<C>)
    requires c in layers && d in layers && forall x :: x in cbs ==> x !in layers
    ensures Stripped([c] + cbs + [d], layers) == cbs
  {
    StrippedOfUser(cbs, layers);
    StrippedOfFront(c, cbs, layers);
    assert ([c] + cbs + [d])[..|cbs| + 1] == [c] + cbs;
  }

  lemma WrappedIsPreserved<C(!new)>(s: Submit<C>, h: Option<Handle>, info: CommandBuffer -> C)
    requires forall c :: c in s.cbs ==> c !in LayerBuffers(info)
    ensures var w := Wrapped(s, h, info); s == w.(cbs := Stripped(w.cbs, LayerBuffers(info)))
  {
    StrippedOfUser(s.cbs, LayerBuffers(info));
    if h.Some? {
      StrippedOfBoth(info(h.value.StartCb()), s.cbs, info(h.value.EndCb()), LayerBuffers(info));
    }
  }

  /** Whatever happens, the driver is called once, and taking the layer's command buffers out
      of what it gets leaves the caller's batch, in order. */
  lemma BatchIsPreserved<C(!new)>(ss: seq<Submit<C>>, mask: seq<bool>, acquire: nat -> Option<Handle>,
                                  info: CommandBuffer -> C, driver: seq<Submit<C>> -> int, o: Outcome<C>)
    requires |ss| == |mask| && Correct(ss, mask, acquire, info, driver, o)
    requires forall s, c :: s in ss && c in s.cbs ==> c !in LayerBuffers(info)
    ensures |o.calls| == 1 && |o.calls[0]| == |ss| && o.result == driver(o.calls[0])
    ensures forall i :: 0 <= i < |ss| ==>
              var sent := o.calls[0][i];
              ss[i] == sent.(cbs := Stripped(sent.cbs, LayerBuffers(info)))
  {
    forall i | 0 <= i < |ss|
      ensures ss[i] == o.calls[0][i].(cbs := Stripped(o.calls[0][i].cbs, LayerBuffers(info)))
    {
      WrappedIsPreserved(ss[i], None, info);
      if AcquireAll(mask, acquire).Ok? { WrappedIsPreserved(ss[i], AcquireAll(mask, acquire).handles[i], info); }
    }
  }

  /** The buffer that writes the start timestamp of a pair, then the caller's own, then the one
      that writes its end timestamp. */
  ghost predicate Sandwiched<C>(sent: Submit<C>, s: Submit<C>, slot: L.Slot, info: CommandBuffer -> C) {
    && sent.cbs == [info(Pooled(slot.chunk, 2 * slot.pair))] + s.cbs + [info(Pooled(slot.chunk, 2 * slot.pair + 1))]
    && sent.tag == s.tag && sent.rest == s.rest
  }

  /** What the driver gets: with every acquire successful, each submit to be injected between the
      two buffers of its own acquire, in order, and every other submit as it is; after a failed
      acquire, or with nothing to inject, the caller's array. */
  lemma WhatTheDriverGets<C>(ss: seq<Submit<C>>, mask: seq<bool>, acquire: nat -> Option<Handle>,
                             info: CommandBuffer -> C, driver: seq<Submit<C>> -> int, o: Outcome<C>)
    requires |ss| == |mask| && Correct(ss, mask, acquire, info, driver, o)
    ensures |o.calls| == 1 && |o.calls[0]| == |ss|
    ensures AcquireAll(mask, acquire).Failed? ==> o.calls[0] == ss
    ensures AcquireAll(mask, acquire).Ok? ==>
              forall i :: 0 <= i < |ss| ==>
                if mask[i] then
                  var h := acquire(Count(mask[..i]));
                  h.Some? && Sandwiched(o.calls[0][i], ss[i], h.value.slot, info)
                else o.calls[0][i] == ss[i]
  {
    if AcquireAll(mask, acquire).Ok? {
      forall i | 0 <= i < |ss| && mask[i]
        ensures var h := acquire(Count(mask[..i]));
                h.Some? && Sandwiched(o.calls[0][i], ss[i], h.value.slot, info)
      {
        AcquiredFromPool(mask, acquire, i);
      }
    }
  }

  /** What the acquires gave so far, in order. */
  ghost predicate Gave(acquire: nat -> Option<Handle>, taken: seq<Handle>) {
    forall k :: 0 <= k < |taken| ==> acquire(k) == Some(taken[k])
  }

  lemma {:induction false} TakenInOrder(mask: seq<bool>, acquire: nat -> Option<Handle>)
    requires AcquireAll(mask, acquire).Ok?
    ensures var taken := Somes(AcquireAll(mask, acquire).handles);
            |taken| == Count(mask) && Gave(acquire, taken)
  {
    if mask != [] {
      var n := |mask| - 1;
      TakenInOrder(mask[..n], acquire);
      SomesNext(AcquireAll(mask[..n], acquire).handles, if mask[n] then acquire(Count(mask[..n])) else None);
    }
  }

  /** Acquires are made in order, one for each submit to be injected, up to the first that fails;
      then the handles already acquired are dropped, and no other. */
  lemma {:induction false} FailsAtFirst(mask: seq<bool>, acquire: nat -> Option<Handle>)
    requires AcquireAll(mask, acquire).Failed?
    ensures var before := AcquireAll(mask, acquire).before;
            |before| < Count(mask) && acquire(|before|) == None && Gave(acquire, before)
  {
    var n := |mask| - 1;
    if AcquireAll(mask[..n], acquire).Failed? {
      FailsAtFirst(mask[..n], acquire);
    } else {
      TakenInOrder(mask[..n], acquire);
    }
  }

  lemma {:induction false} AcquiredFromPool(mask: seq<bool>, acquire: nat -> Option<Handle>, i: nat)
    requires i < |mask| && mask[i] && AcquireAll(mask, acquire).Ok?
    ensures Count(mask[..i]) < Count(mask)
    ensures AcquireAll(mask, acquire).handles[i] == acquire(Count(mask[..i]))
  {
    var n := |mask| - 1;
    if i < n {
      AcquiredFromPool(mask[..n], acquire, i);
      assert mask[..n][..i] == mask[..i];
    }
  }

  lemma {:induction false} CountGrows(mask: seq<bool>, i: nat, j: nat)
    requires i < j <= |mask| && mask[i]
    ensures Count(mask[..i]) < Count(mask[..j])
  {
    assert mask[..j][..j - 1] == mask[..j - 1];
    if i < j - 1 { CountGrows(mask, i, j - 1); }
  }

  // ----- The batch in a run of the pool

  /** The handle that the p-th event of a run made. */
  ghost function HandleAt(es: seq<L.Event>, p: nat): Handle
    requires p < |es| && es[p].RecordOk? && L.After(es).Some?
  {
    L.PrefixRuns(es, p);
    Handle(es[p].h, L.After(es[..p]).value.acquiring[es[p].t])
  }

  /** es is a run of the pool in which this batch's acquires succeeded at the events ps, among
      whatever else other threads, the GPU and the reaper did, and the submit path still owns
      every handle it got. */
  ghost predicate FromPool(es: seq<L.Event>, ps: seq<nat>, acquire: nat -> Option<Handle>) {
    && L.After(es).Some?
    && (forall k :: 0 <= k < |ps| ==> ps[k] < |es| && es[ps[k]].RecordOk?)
    && (forall k, l :: 0 <= k < l < |ps| ==> ps[k] < ps[l])
    && (forall k :: 0 <= k < |ps| ==> acquire(k) == Some(HandleAt(es, ps[k])))
    && (forall k, j :: 0 <= k < |ps| && ps[k] < j < |es| ==> es[j] != L.Unref(es[ps[k]].h))
  }

  /** A handle stays alive, on its pair, while nobody gives up a reference to it. */
  lemma {:induction false} HandleStays(es: seq<L.Event>, p: nat)
    requires p < |es| && es[p].RecordOk? && L.After(es).Some?
    requires forall j :: p < j < |es| ==> es[j] != L.Unref(es[p].h)
    ensures var h := HandleAt(es, p);
            h.id in L.After(es).value.live && L.After(es).value.live[h.id].slot == h.slot
  {
    var n := |es| - 1;
    L.PrefixRuns(es, n);
    if p < n {
      assert es[..n][..p] == es[..p];
      HandleStays(es[..n], p);
    }
  }

  lemma HandlesDiffer(es: seq<L.Event>, p: nat, q: nat)
    requires p < q < |es| && es[p].RecordOk? && es[q].RecordOk? && L.After(es).Some?
    requires forall j :: p < j < |es| ==> es[j] != L.Unref(es[p].h)
    requires forall j :: q < j < |es| ==> es[j] != L.Unref(es[q].h)
    ensures HandleAt(es, p).id != HandleAt(es, q).id && HandleAt(es, p).slot != HandleAt(es, q).slot
  {
    L.PrefixRuns(es, q);
    assert es[..q][..p] == es[..p];
    HandleStays(es[..q], p);
    HandleStays(es, p);
    HandleStays(es, q);
    L.PairsHaveOneOwner(es);
  }

  /** Different pairs, and no command buffer in common. */
  predicate Apart(g: Handle, h: Handle) {
    g.slot != h.slot && {g.StartCb(), g.EndCb()} !! {h.StartCb(), h.EndCb()}
  }

  /** The pair was recorded in this run by a thread that alone held it, having taken it when it
      was free, or first of a new chunk. */
  ghost predicate RecordedWhenFree(es: seq<L.Event>, h: Handle)
    requires L.After(es).Some?
  {
    exists p :: 0 <= p < |es| && es[p].RecordOk? && h == HandleAt(es, p) && L.WasFree(es[..p], es[p].t, h.slot)
  }

  lemma TwoApart(mask: seq<bool>, acquire: nat -> Option<Handle>, es: seq<L.Event>, ps: seq<nat>, i: nat, j: nat)
    requires FromPool(es, ps, acquire) && |ps| == Count(mask)
    requires i < j < |mask| && mask[i] && mask[j]
    ensures Count(mask[..i]) < |ps| && Count(mask[..j]) < |ps|
    ensures Apart(HandleAt(es, ps[Count(mask[..i])]), HandleAt(es, ps[Count(mask[..j])]))
  {
    CountBelow(mask, j);
    CountGrows(mask, i, j);
    HandlesDiffer(es, ps[Count(mask[..i])], ps[Count(mask[..j])]);
  }

  lemma CountBelow(mask: seq<bool>, i: nat)
    requires i < |mask| && mask[i]
    ensures Count(mask[..i]) < Count(mask)
  {
    CountGrows(mask, i, |mask|);
    assert mask[..|mask|] == mask;
  }

  lemma OneWhenFree(es: seq<L.Event>, p: nat)
    requires L.After(es).Some? && p < |es| && es[p].RecordOk?
    ensures RecordedWhenFree(es, HandleAt(es, p))
  {
    L.PrefixRuns(es, p);
    L.AcquiredWhenFree(es[..p], es[p].t);
  }

  /** The handles of a batch are made by different events of the run, in submit order. */
  lemma HandlesFromPool(mask: seq<bool>, acquire: nat -> Option<Handle>, es: seq<L.Event>, ps: seq<nat>, i: nat)
    requires FromPool(es, ps, acquire) && |ps| == Count(mask) && i < |mask| && mask[i]
    ensures Count(mask[..i]) < |ps| && AcquireAll(mask, acquire).Ok?
    ensures AcquireAll(mask, acquire).handles[i] == Some(HandleAt(es, ps[Count(mask[..i])]))
  {
    PoolSuffices(mask, acquire, |ps|);
    AcquiredFromPool(mask, acquire, i);
  }

  /** The injected submits of a batch hold pairwise different pairs and command buffers, each
      recorded while nobody else held it. */
  lemma PairsOfABatchDiffer(mask: seq<bool>, acquire: nat -> Option<Handle>, es: seq<L.Event>, ps: seq<nat>)
    requires FromPool(es, ps, acquire) && |ps| == Count(mask)
    ensures AcquireAll(mask, acquire).Ok?
    ensures var hs := AcquireAll(mask, acquire).handles;
            && (forall i, j :: 0 <= i < j < |mask| && mask[i] && mask[j] ==> Apart(hs[i].value, hs[j].value))
            && (forall i :: 0 <= i < |mask| && mask[i] ==> RecordedWhenFree(es, hs[i].value))
  {
    PoolSuffices(mask, acquire, |ps|);
    var hs := AcquireAll(mask, acquire).handles;
    forall i, j | 0 <= i < j < |mask| && mask[i] && mask[j] ensures Apart(hs[i].value, hs[j].value) {
      HandlesFromPool(mask, acquire, es, ps, i);
      HandlesFromPool(mask, acquire, es, ps, j);
      TwoApart(mask, acquire, es, ps, i, j);
    }
    forall i | 0 <= i < |mask| && mask[i] ensures RecordedWhenFree(es, hs[i].value) {
      HandlesFromPool(mask, acquire, es, ps, i);
      OneWhenFree(es, ps[Count(mask[..i])]);
    }
  }

  lemma {:induction false} PoolSuffices(mask: seq<bool>, acquire: nat -> Option<Handle>, n: nat)
    requires Count(mask) <= n && forall k :: 0 <= k < n ==> acquire(k).Some?
    ensures AcquireAll(mask, acquire).Ok?
  {
    if mask != [] { PoolSuffices(mask[..|mask| - 1], acquire, n); }
  }

  // ----- The bookkeeping

  /** If any acquire fails the caller's array is forwarded unchanged and nothing is marked as
      submitted.  Otherwise, when the driver accepted the batch, each injected submit's handle
      is marked and right after that given to the strategy with that submit's own tag; and when
      it did not, every handle is dropped unmarked. */
  lemma HandlesAreMarkedIffSubmitted<C(!new)>(ss: seq<Submit<C>>, mask: seq<bool>, acquire: nat -> Option<Handle>,
                                              info: CommandBuffer -> C, driver: seq<Submit<C>> -> int, o: Outcome<C>)
    requires |ss| == |mask| && Correct(ss, mask, acquire, info, driver, o)
    ensures AcquireAll(mask, acquire).Failed? ==>
              && o.calls == [ss] && o.deeds == [] && o.injectedCount == None
              && o.dropped == AcquireAll(mask, acquire).before
    ensures AcquireAll(mask, acquire).Ok? ==>
              var hs := AcquireAll(mask, acquire).handles;
              && |Somes(hs)| == Count(mask)
              && (o.result != SUCCESS ==> o.deeds == [] && o.dropped == Somes(hs))
              && (o.result == SUCCESS && ss != [] ==> o.injectedCount == Some(Count(mask)))
              && (o.result == SUCCESS ==>
                    && o.dropped == [] && |o.deeds| == 2 * Count(mask)
                    && forall i :: 0 <= i < |mask| && mask[i] ==>
                         DoneTo(o.deeds, Count(mask[..i]), ss[i].tag, hs[i].value))
  {
    if AcquireAll(mask, acquire).Ok? {
      var hs := AcquireAll(mask, acquire).handles;
      TakenCount(mask, acquire);
      DeedsCount(ss, mask, hs);
      forall i | 0 <= i < |mask| && mask[i] ensures DoneTo(Deeds(ss, hs), Count(mask[..i]), ss[i].tag, hs[i].value) {
        DeedsByTwo(ss, mask, hs, i);
      }
    }
  }

  lemma {:induction false} TakenCount(mask: seq<bool>, acquire: nat -> Option<Handle>)
    requires AcquireAll(mask, acquire).Ok?
    ensures |Somes(AcquireAll(mask, acquire).handles)| == Count(mask)
    ensures true !in mask ==> Count(mask) == 0
  {
    if mask != [] {
      var n := |mask| - 1;
      TakenCount(mask[..n], acquire);
      var hs := AcquireAll(mask, acquire).handles;
      assert hs[..n] == AcquireAll(mask[..n], acquire).handles;
    }
  }

  /** The k-th injected submit's handle was marked, then noticed with that tag. */
  ghost predicate DoneTo(deeds: seq<Deed>, k: nat, tag: Option<PresentId>, h: Handle) {
    2 * k + 1 < |deeds| && deeds[2 * k] == Marked(h) && deeds[2 * k + 1] == Noticed(tag, h)
  }

  lemma {:induction false} DeedsByTwo<C>(ss: seq<Submit<C>>, mask: seq<bool>, hs: seq<Option<Handle>>, i: nat)
    requires |ss| == |hs| == |mask| && forall j :: 0 <= j < |mask| ==> hs[j].Some? == mask[j]
    requires i < |mask| && mask[i]
    ensures DoneTo(Deeds(ss, hs), Count(mask[..i]), ss[i].tag, hs[i].value)
  {
    var n := |ss| - 1;
    if i < n {
      assert mask[..n][..i] == mask[..i];
      DeedsByTwo(ss[..n], mask[..n], hs[..n], i);
    } else {
      DeedsCount(ss[..n], mask[..n], hs[..n]);
    }
  }

  lemma {:induction false} DeedsCount<C>(ss: seq<Submit<C>>, mask: seq<bool>, hs: seq<Option<Handle>>)
    requires |ss| == |hs| == |mask| && forall i :: 0 <= i < |mask| ==> hs[i].Some? == mask[i]
    ensures |Deeds(ss, hs)| == 2 * Count(mask)
  {
    if ss != [] {
      var n := |ss| - 1;
      DeedsCount(ss[..n], mask[..n], hs[..n]);
    }
  }
}
