/** One queue's Reflex bookkeeping: submissions grouped by present id, and the FIFO of
    tagged submits that bounds how many groups are kept. */
module QueueSpans {
  import opened Wrappers

  type HandleId = nat
  type PresentId = nat     // 0: the submit carried no present id

  const MAX_TRACKED_PRESENTS: nat := 50

  /** A frame's submissions collapsed to the first and the last handle. */
  datatype Span = Span(head: HandleId, tail: Option<HandleId>) {
    /** SubmissionSpan::extend */
    function Extend(h: HandleId): Span { this.(tail := Some(h)) }

    /** The handle whose end timestamp completes the span. */
    function Last(): HandleId { if tail.Some? then tail.value else head }
  }

  datatype State = State(submissions: map<PresentId, Span>, stale: seq<PresentId>)

  datatype Op = Submit(id: PresentId, h: HandleId) | Take(id: PresentId)

  function Added(m: map<PresentId, Span>, id: PresentId, h: HandleId): map<PresentId, Span> {
    m[id := if id in m then m[id].Extend(h) else Span(h, None)]
  }

  function AfterSubmit(s: State, id: PresentId, h: HandleId): State {
    var m := Added(s.submissions, id, h);
    if id == 0 then State(m, s.stale)
    else
      var stale := s.stale + [id];
      if |stale| > MAX_TRACKED_PRESENTS then State(m - {stale[0]}, stale[1..])
      else State(m, stale)
  }

  function AfterOp(s: State, op: Op): State {
    match op
    case Submit(id, h) => AfterSubmit(s, id, h)
    case Take(id) => s.(submissions := s.submissions - {id})
  }

  function After(s: State, ops: seq<Op>): State {
    if ops == [] then s else AfterOp(After(s, ops[..|ops| - 1]), ops[|ops| - 1])
  }

  const START: State := State(map[], [])

  class LowLatency2Queue {
    var submissions: map<PresentId, Span>
    var stalePresentIds: seq<PresentId>
    var isOutOfBand: bool

    ghost function Abstract(): State
      reads this
    {
      State(submissions, stalePresentIds)
    }

    constructor ()
      ensures Abstract() == START && !isOutOfBand
    {
      submissions, stalePresentIds, isOutOfBand := map[], [], false;
    }

    method MarkOutOfBand()
      modifies this`isOutOfBand
      ensures isOutOfBand
    {
      isOutOfBand := true;
    }

    /** notify_submit; tag is what the pNext chain carries, if anything. */
    method NotifySubmit(tag: Option<PresentId>, h: HandleId)
      modifies this`submissions, this`stalePresentIds
      ensures Abstract() == AfterSubmit(old(Abstract()), if tag.Some? then tag.value else 0, h)
    {
      var id := if tag.Some? then tag.value else 0;
      if id in submissions {
        submissions := submissions[id := submissions[id].Extend(h)];
      } else {
        submissions := submissions[id := Span(h, None)];
      }
      if id != 0 {
        stalePresentIds := stalePresentIds + [id];
        if |stalePresentIds| > MAX_TRACKED_PRESENTS {
          submissions := submissions - {stalePresentIds[0]};
          stalePresentIds := stalePresentIds[1..];
        }
      }
    }

    method TakeByPresentId(id: PresentId) returns (r: Option<Span>)
      modifies this`submissions
      ensures r == if id in old(submissions) then Some(old(submissions)[id]) else None
      ensures Abstract() == AfterOp(old(Abstract()), Take(id))
    {
      r := if id in submissions then Some(submissions[id]) else None;
      submissions := submissions - {id};
    }
  }

  // ----- Bounded memory

  ghost predicate Bounded(s: State) {
    && |s.stale| <= MAX_TRACKED_PRESENTS
    && forall id :: id in s.submissions && id != 0 ==> id in s.stale
  }

  lemma {:induction false} MapSizeAtMost(keys: set<PresentId>, ids: seq<PresentId>)
    requires forall id :: id in keys ==> id in ids
    ensures |keys| <= |ids|
  {
    if ids == [] {
      assert keys == {};
    } else {
      MapSizeAtMost(keys - {ids[0]}, ids[1..]);
      assert keys - {ids[0]} == keys || |keys - {ids[0]}| == |keys| - 1;
    }
  }

  lemma BoundedKept(s: State, op: Op)
    requires Bounded(s)
    ensures Bounded(AfterOp(s, op))
  {
    if op.Submit? && op.id != 0 {
      var stale := s.stale + [op.id];
      forall id | id in stale && |stale| > 0 && id != stale[0] ensures id in stale[1..] {}
    }
  }

  /** At most 51 spans are held at any time, and every tagged one is still in the FIFO. */
  lemma {:induction false} AlwaysBounded(ops: seq<Op>)
    ensures var s := After(START, ops);
            Bounded(s) && |s.submissions| <= MAX_TRACKED_PRESENTS + 1
  {
    if ops != [] {
      AlwaysBounded(ops[..|ops| - 1]);
      BoundedKept(After(START, ops[..|ops| - 1]), ops[|ops| - 1]);
    }
    var s := After(START, ops);
    MapSizeAtMost(s.submissions.Keys - {0}, s.stale);
    assert s.submissions.Keys - {0} == s.submissions.Keys || |s.submissions.Keys - {0}| == |s.submissions.Keys| - 1;
  }

  // ----- What a claimed span covers

  /** Whether op makes the queue forget id. */
  ghost predicate Forgets(s: State, op: Op, id: PresentId) {
    match op
    case Take(x) => x == id
    case Submit(x, _) => x != 0 && |s.stale| == MAX_TRACKED_PRESENTS && s.stale[0] == id
  }

  /** The handles submitted for id since it was last taken or evicted, oldest first. */
  ghost function HandlesOf(ops: seq<Op>, id: PresentId): seq<HandleId> {
    if ops == [] then []
    else
      var before, op := ops[..|ops| - 1], ops[|ops| - 1];
      if Forgets(After(START, before), op, id) then []
      else if op.Submit? && op.id == id then HandlesOf(before, id) + [op.h]
      else HandlesOf(before, id)
  }

  ghost function Collapsed(hs: seq<HandleId>): Span
    requires hs != []
  {
    Span(hs[0], if |hs| == 1 then None else Some(hs[|hs| - 1]))
  }

  /** An id is claimable exactly when it has handles since it was last taken or evicted, and
      then its span starts at the first and ends at the last of them. */
  lemma {:induction false} SpanCoversItsHandles(ops: seq<Op>, id: PresentId)
    ensures var s, hs := After(START, ops), HandlesOf(ops, id);
            && (id in s.submissions <==> hs != [])
            && (hs != [] ==> s.submissions[id] == Collapsed(hs) && s.submissions[id].Last() == hs[|hs| - 1])
  {
    if ops != [] {
      SpanCoversItsHandles(ops[..|ops| - 1], id);
      AlwaysBounded(ops[..|ops| - 1]);
    }
  }

  // ----- How long an id stays claimable

  ghost predicate EndsTagged(ops: seq<Op>) {
    ops != [] && ops[|ops| - 1].Submit? && ops[|ops| - 1].id != 0
  }

  /** The number of submits that carry a present id. */
  ghost function Tagged(ops: seq<Op>): nat {
    if ops == [] then 0 else Tagged(ops[..|ops| - 1]) + if EndsTagged(ops) then 1 else 0
  }

  /** id is claimable and its oldest entry in the FIFO has exactly m entries behind it. */
  ghost predicate Aged(s: State, id: PresentId, m: nat) {
    && id in s.submissions
    && m < |s.stale| <= MAX_TRACKED_PRESENTS
    && s.stale[|s.stale| - 1 - m] == id
    && id !in s.stale[..|s.stale| - 1 - m]
  }

  lemma AgesByOne(s: State, op: Op, id: PresentId, m: nat)
    requires Aged(s, id, m) && op != Take(id)
    ensures op.Submit? && op.id != 0 ==>
              if m + 1 < MAX_TRACKED_PRESENTS then Aged(AfterOp(s, op), id, m + 1)
              else id !in AfterOp(s, op).submissions
    ensures !(op.Submit? && op.id != 0) ==> Aged(AfterOp(s, op), id, m)
  {}

  /** Whatever else happens, an id whose oldest entry has m entries behind it is not evicted
      by the next 49 - m tagged submits, and is evicted by the one after them. */
  lemma {:induction false} ClaimableUntil(s: State, id: PresentId, m: nat, more: seq<Op>)
    requires Aged(s, id, m)
    requires Take(id) !in more
    ensures m + Tagged(more) < MAX_TRACKED_PRESENTS ==> Aged(After(s, more), id, m + Tagged(more))
    ensures m + Tagged(more) == MAX_TRACKED_PRESENTS && EndsTagged(more) ==> id !in After(s, more).submissions
  {
    if more != [] {
      var n := |more| - 1;
      ClaimableUntil(s, id, m, more[..n]);
      if m + Tagged(more[..n]) < MAX_TRACKED_PRESENTS {
        AgesByOne(After(s, more[..n]), more[n], id, m + Tagged(more[..n]));
      }
    }
  }

  /** A present id that is not in the FIFO when it is first submitted can be claimed until
      the 50th tagged submit after it, even if that one carries the id itself. */
  lemma FreshIdLivesFiftySubmits(ops: seq<Op>, id: PresentId, h: HandleId, more: seq<Op>)
    requires id != 0 && id !in After(START, ops).stale
    requires Take(id) !in more
    ensures var s := After(After(START, ops + [Submit(id, h)]), more);
            && (Tagged(more) < MAX_TRACKED_PRESENTS ==> id in s.submissions)
            && (Tagged(more) == MAX_TRACKED_PRESENTS && EndsTagged(more) ==> id !in s.submissions)
  {
    AlwaysBounded(ops);
    assert (ops + [Submit(id, h)])[..|ops|] == ops;
    ClaimableUntil(After(START, ops + [Submit(id, h)]), id, 0, more);
  }
}
