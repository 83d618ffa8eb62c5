/** Claiming a presented frame's spans from every queue of the device. */
module QueueClaims {
  import opened QueueSpans

  /** A queue's bookkeeping and whether it was marked out of band. */
  datatype Snapshot = Snapshot(s: State, outOfBand: bool)

  ghost function Now(q: LowLatency2Queue): Snapshot
    reads q
  {
    Snapshot(q.Abstract(), q.isOutOfBand)
  }

  ghost function Snapshots(queues: seq<LowLatency2Queue>): (r: seq<Snapshot>)
    reads queues
    ensures |r| == |queues|
    ensures forall i :: 0 <= i < |r| ==> r[i] == Now(queues[i])
  {
    if queues == [] then []
    else
      var n := |queues| - 1;
      Snapshots(queues[..n]) + [Now(queues[n])]
  }

  function AfterClaim(q: Snapshot, id: PresentId): Snapshot {
    if q.outOfBand then q else q.(s := AfterOp(q.s, Take(id)))
  }

  predicate Offers(q: Snapshot, id: PresentId) { !q.outOfBand && id in q.s.submissions }

  /** One span of each in-band queue that has the id, in queue order. */
  function Claimed(qs: seq<Snapshot>, id: PresentId): seq<Span> {
    if qs == [] then []
    else
      var n := |qs| - 1;
      Claimed(qs[..n], id) + if Offers(qs[n], id) then [qs[n].s.submissions[id]] else []
  }

  /** One queue's turn. */
  method ClaimFrom(q: LowLatency2Queue, id: PresentId) returns (r: seq<Span>)
    modifies q
    ensures r == if Offers(old(Now(q)), id) then [old(Now(q)).s.submissions[id]] else []
    ensures Now(q) == AfterClaim(old(Now(q)), id)
  {
    if q.isOutOfBand { return []; }
    var span := q.TakeByPresentId(id);
    r := if span.Some? then [span.value] else [];
  }

  /** The loop of submit_swapchain_present_id. */
  method CollectWork(queues: seq<LowLatency2Queue>, id: PresentId) returns (work: seq<Span>)
    requires forall i, j :: 0 <= i < j < |queues| ==> queues[i] != queues[j]
    modifies queues
    ensures work == Claimed(old(Snapshots(queues)), id)
    ensures forall i :: 0 <= i < |queues| ==> Now(queues[i]) == AfterClaim(old(Now(queues[i])), id)
  {
    ghost var was := Snapshots(queues);
    work := [];
    for i := 0 to |queues|
      invariant work == Claimed(was[..i], id)
      invariant forall j :: 0 <= j < i ==> Now(queues[j]) == AfterClaim(was[j], id)
      invariant forall j :: i <= j < |queues| ==> Now(queues[j]) == was[j]
    {
      assert was[..i + 1][..i] == was[..i];
      assert Now(queues[i]) == was[i];
      var claimed := ClaimFrom(queues[i], id);
      work := work + claimed;
    }
    assert was[..|queues|] == was;
  }

  /** Each span is claimed by one present only: the same id claimed again yields nothing. */
  lemma {:induction false} ClaimedOnce(qs: seq<Snapshot>, after: seq<Snapshot>, id: PresentId)
    requires |after| == |qs| && forall i :: 0 <= i < |qs| ==> after[i] == AfterClaim(qs[i], id)
    ensures Claimed(after, id) == []
  {
    if qs != [] { ClaimedOnce(qs[..|qs| - 1], after[..|qs| - 1], id); }
  }

  ghost function HistoryOf(history: seq<seq<Op>>, outOfBand: seq<bool>): (r: seq<Snapshot>)
    requires |history| == |outOfBand|
    ensures |r| == |history|
    ensures forall i :: 0 <= i < |r| ==> r[i] == Snapshot(After(START, history[i]), outOfBand[i])
  {
    seq(|history|, i requires 0 <= i < |history| => Snapshot(After(START, history[i]), outOfBand[i]))
  }

  /** What each queue has done for the id since it was last taken or evicted there. */
  ghost function Work(history: seq<seq<Op>>, outOfBand: seq<bool>, id: PresentId): seq<Span>
    requires |history| == |outOfBand|
  {
    if history == [] then []
    else
      var n := |history| - 1;
      var hs := HandlesOf(history[n], id);
      Work(history[..n], outOfBand[..n], id) + if outOfBand[n] || hs == [] then [] else [Collapsed(hs)]
  }

  /** What one queue offers is the span over its handles for the id. */
  lemma OfferedSpan(ops: seq<Op>, outOfBand: bool, id: PresentId)
    ensures var q, hs := Snapshot(After(START, ops), outOfBand), HandlesOf(ops, id);
            && (Offers(q, id) <==> !outOfBand && hs != [])
            && (Offers(q, id) ==> q.s.submissions[id] == Collapsed(hs))
  {
    SpanCoversItsHandles(ops, id);
  }

  /** The work claimed for an id is exactly that: of each in-band queue with handles for it one
      span, from the first to the last handle, in queue order. */
  lemma {:induction false} WorkCoversEveryQueue(history: seq<seq<Op>>, outOfBand: seq<bool>, id: PresentId)
    requires |history| == |outOfBand|
    ensures Claimed(HistoryOf(history, outOfBand), id) == Work(history, outOfBand, id)
  {
    if history != [] {
      var n := |history| - 1;
      WorkCoversEveryQueue(history[..n], outOfBand[..n], id);
      OfferedSpan(history[n], outOfBand[n], id);
      assert HistoryOf(history, outOfBand)[..n] == HistoryOf(history[..n], outOfBand[..n]);
    }
  }
}
