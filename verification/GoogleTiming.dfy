/** The VK_GOOGLE_display_timing fallback: a bounded FIFO of present ids per swapchain, and
    the worker that pairs each timing the driver returns with the id at its head.  Which
    present a timing belongs to is the subject of TimingCorrelation; here it is the times. */
module GoogleTiming {
  import opened Wrappers

  type Swapchain = nat
  type PresentId = nat
  type Nanos = nat

  const PENDING_CAP: nat := 256
  const ACCEPT_SKEW_NS: int := 5_000_000_000

  /** In which clock the driver's times are, once that has been judged. */
  datatype Domain = Unvalidated | Monotonic | Unknown

  predicate Near(sample: Nanos, now: Nanos) { -ACCEPT_SKEW_NS <= sample - now <= ACCEPT_SKEW_NS }

  /** classify_google_domain */
  function Classify(sample: Nanos, now: Nanos): Domain {
    if Near(sample, now) then Monotonic else Unknown
  }

  /** The time that is recorded for one timing; 0 means the driver gave none. */
  function HostNs(d: Domain, sample: Nanos, now: Nanos): Nanos {
    if d.Monotonic? && sample != 0 then sample else now
  }

  function FirstNonZero(samples: seq<Nanos>): (i: nat)
    ensures i <= |samples| && forall j :: 0 <= j < i ==> samples[j] == 0
    ensures i < |samples| ==> samples[i] != 0
  {
    if samples == [] || samples[0] != 0 then 0 else 1 + FirstNonZero(samples[1..])
  }

  /** The domain is judged once, by the first sample that is not 0. */
  function Validated(d: Domain, samples: seq<Nanos>, now: Nanos): Domain {
    var i := FirstNonZero(samples);
    if d.Unvalidated? && i < |samples| then Classify(samples[i], now) else d
  }

  /** The FIFO after one more present. */
  function Enqueued(fifo: seq<PresentId>, id: PresentId): seq<PresentId> {
    (if |fifo| >= PENDING_CAP then fifo[1..] else fifo) + [id]
  }

  /** The FIFO of a swapchain; one that was never seen, or was forgotten, has none. */
  function FifoOf(pending: map<Swapchain, seq<PresentId>>, sw: Swapchain): seq<PresentId> {
    if sw in pending then pending[sw] else []
  }

  /** How many timings find an id to go to. */
  function PairCount(fifo: seq<PresentId>, samples: seq<Nanos>): nat {
    if |fifo| <= |samples| then |fifo| else |samples|
  }

  /** The record_present_actual calls of one poll. */
  function Recorded(fifo: seq<PresentId>, d: Domain, samples: seq<Nanos>, now: Nanos): (r: seq<(PresentId, Nanos)>)
    ensures |r| == PairCount(fifo, samples)
    ensures forall k :: 0 <= k < |r| ==> r[k] == (fifo[k], HostNs(d, samples[k], now))
  {
    seq(PairCount(fifo, samples),
        k requires 0 <= k < PairCount(fifo, samples) => (fifo[k], HostNs(d, samples[k], now)))
  }

  // ----- The worker's fields, and what each call does to them

  datatype State = State(pending: map<Swapchain, seq<PresentId>>, domain: Domain)

  datatype Call =
    | Enqueue(sw: Swapchain, id: PresentId)
    | Forget(sw: Swapchain)
    | Poll(sw: Swapchain, samples: seq<Nanos>, now: Nanos)   // timings the driver returned for sw

  function AfterPoll(s: State, sw: Swapchain, samples: seq<Nanos>, now: Nanos): State {
    if sw !in s.pending then s
    else
      var fifo := s.pending[sw];
      State(s.pending[sw := fifo[PairCount(fifo, samples)..]], Validated(s.domain, samples, now))
  }

  function AfterCall(s: State, c: Call): State {
    match c
    case Enqueue(sw, id) =>
      if id == 0 then s else s.(pending := s.pending[sw := Enqueued(FifoOf(s.pending, sw), id)])
    case Forget(sw) => s.(pending := s.pending - {sw})
    case Poll(sw, samples, now) => AfterPoll(s, sw, samples, now)
  }

  class GoogleTimingWorker {
    var pending: map<Swapchain, seq<PresentId>>
    var domain: Domain

    ghost function Abstract(): State
      reads this
    {
      State(pending, domain)
    }

    constructor ()
      ensures Abstract() == START
    {
      pending, domain := map[], Unvalidated;
    }

    method Enqueue(sw: Swapchain, id: PresentId)
      modifies this`pending
      ensures Abstract() == AfterCall(old(Abstract()), Call.Enqueue(sw, id))
    {
      if id == 0 { return; }
      var fifo := if sw in pending then pending[sw] else [];
      if |fifo| >= PENDING_CAP { fifo := fifo[1..]; }
      pending := pending[sw := fifo + [id]];
    }

    method ForgetSwapchain(sw: Swapchain)
      modifies this`pending
      ensures Abstract() == AfterCall(old(Abstract()), Forget(sw))
    {
      pending := pending - {sw};
    }

    /** find: the first sample that is not 0. */
    method Validate(samples: seq<Nanos>, now: Nanos)
      modifies this`domain
      ensures domain == Validated(old(domain), samples, now)
    {
      if !domain.Unvalidated? { return; }
      for i := 0 to |samples|
        invariant domain == Unvalidated
        invariant forall j :: 0 <= j < i ==> samples[j] == 0
      {
        if samples[i] != 0 {
          assert FirstNonZero(samples) == i;
          domain := Classify(samples[i], now);
          return;
        }
      }
    }

    /** The timings the driver returned for one swapchain, under the lock.  Nothing is read from
        them, not even the clock domain, once the swapchain is forgotten. */
    method Pair(sw: Swapchain, samples: seq<Nanos>, now: Nanos) returns (recorded: seq<(PresentId, Nanos)>)
      modifies this
      ensures Abstract() == AfterCall(old(Abstract()), Poll(sw, samples, now))
      ensures recorded == Recorded(FifoOf(old(pending), sw), domain, samples, now)
    {
      recorded := [];
      if sw !in pending { return; }
      Validate(samples, now);
      var rest;
      recorded, rest := PairInOrder(pending[sw], domain, samples, now);
      pending := pending[sw := rest];
    }
  }

  /** The pairing loop: the i-th timing goes to the i-th id, and those beyond the end of the
      FIFO are discarded. */
  method PairInOrder(fifo: seq<PresentId>, d: Domain, samples: seq<Nanos>, now: Nanos)
    returns (recorded: seq<(PresentId, Nanos)>, rest: seq<PresentId>)
    ensures recorded == Recorded(fifo, d, samples, now) && rest == fifo[|recorded|..]
  {
    ghost var all := Recorded(fifo, d, samples, now);
    recorded, rest := [], fifo;
    for i := 0 to |samples|
      invariant |recorded| == i <= |all| && recorded == all[..i] && rest == fifo[i..]
    {
      if rest == [] { break; }
      recorded := recorded + [(rest[0], HostNs(d, samples[i], now))];
      rest := rest[1..];
    }
  }

  // ----- Whole runs, over all swapchains

  const START: State := State(map[], Unvalidated)

  ghost function After(cs: seq<Call>): State {
    if cs == [] then START else AfterCall(After(cs[..|cs| - 1]), cs[|cs| - 1])
  }

  /** A timing the worker looked at: its time, the clock of its poll, and the time that was
      recorded for it, if an id was pending. */
  datatype Timing = Timing(sample: Nanos, now: Nanos, used: Option<Nanos>)

  ghost function Looked(s: State, c: Call): seq<Timing> {
    if !(c.Poll? && c.sw in s.pending) then []
    else
      var recorded := Recorded(s.pending[c.sw], Validated(s.domain, c.samples, c.now), c.samples, c.now);
      seq(|c.samples|, k requires 0 <= k < |c.samples| =>
        Timing(c.samples[k], c.now, if k < |recorded| then Some(recorded[k].1) else None))
  }

  /** Every timing of the run, in order. */
  ghost function Log(cs: seq<Call>): seq<Timing> {
    if cs == [] then []
    else Log(cs[..|cs| - 1]) + Looked(After(cs[..|cs| - 1]), cs[|cs| - 1])
  }

  /** The first timing whose time is not 0. */
  ghost function FirstTimed(log: seq<Timing>): (i: nat)
    ensures i <= |log| && forall j :: 0 <= j < i ==> log[j].sample == 0
    ensures i < |log| ==> log[i].sample != 0
  {
    if log == [] || log[0].sample != 0 then 0 else 1 + FirstTimed(log[1..])
  }

  ghost function Judged(log: seq<Timing>): Domain {
    var i := FirstTimed(log);
    if i < |log| then Classify(log[i].sample, log[i].now) else Unvalidated
  }

  lemma JudgedLater(log: seq<Timing>, more: seq<Timing>)
    ensures Judged(log + more) == if Judged(log).Unvalidated? then Judged(more) else Judged(log)
  {
    var i, j, all := FirstTimed(log), FirstTimed(more), log + more;
    if i < |log| {
      assert all[i] == log[i];
    } else if j < |more| {
      assert all[|log| + j] == more[j];
      assert forall k :: 0 <= k < |log| + j ==> all[k].sample == 0;
    }
  }

  lemma PollJudges(s: State, c: Call)
    ensures AfterCall(s, c).domain == if s.domain.Unvalidated? then Judged(Looked(s, c)) else s.domain
  {
    if c.Poll? && c.sw in s.pending {
      var seen := Looked(s, c);
      var i, j := FirstNonZero(c.samples), FirstTimed(seen);
      assert i < |c.samples| ==> seen[i].sample != 0;
      assert j < |seen| ==> c.samples[j] != 0;
    }
  }

  /** The clock domain is decided by the first non-zero time of the whole run, once and for all. */
  lemma {:induction false} DomainIsJudgedOnce(cs: seq<Call>)
    ensures After(cs).domain == Judged(Log(cs))
  {
    if cs != [] {
      var n := |cs| - 1;
      DomainIsJudgedOnce(cs[..n]);
      PollJudges(After(cs[..n]), cs[n]);
      JudgedLater(Log(cs[..n]), Looked(After(cs[..n]), cs[n]));
    }
  }

  /** Every recorded time was chosen by the domain d. */
  ghost predicate ChosenBy(log: seq<Timing>, d: Domain) {
    forall t :: t in log && t.used.Some? ==> t.used.value == HostNs(d, t.sample, t.now)
  }

  lemma UnjudgedIsTimeless(log: seq<Timing>, d: Domain)
    requires Judged(log).Unvalidated? && ChosenBy(log, Unvalidated)
    ensures ChosenBy(log, d)
  {
    forall t | t in log && t.used.Some? ensures t.used.value == HostNs(d, t.sample, t.now) {
      var k :| 0 <= k < |log| && log[k] == t;
      assert log[k].sample == 0;
    }
  }

  lemma LookedChosen(s: State, c: Call)
    ensures ChosenBy(Looked(s, c), AfterCall(s, c).domain)
  {}

  lemma {:induction false} OneDomainChooses(cs: seq<Call>)
    ensures ChosenBy(Log(cs), After(cs).domain)
  {
    if cs != [] {
      var n := |cs| - 1;
      var s := After(cs[..n]);
      OneDomainChooses(cs[..n]);
      DomainIsJudgedOnce(cs[..n]);
      PollJudges(s, cs[n]);
      LookedChosen(s, cs[n]);
      if s.domain.Unvalidated? { UnjudgedIsTimeless(Log(cs[..n]), After(cs).domain); }
    }
  }

  /** The run's first non-zero time, if there is one, is within five seconds of its own poll. */
  ghost predicate Trusted(log: seq<Timing>) {
    var i := FirstTimed(log);
    i < |log| && -5_000_000_000 <= log[i].sample - log[i].now <= 5_000_000_000
  }

  /** Over every run, what is recorded for a timing that found an id: in a trusted clock its own
      time, however far off, as long as the driver gave one; otherwise the clock of its poll. */
  lemma WhatIsRecorded(cs: seq<Call>, k: nat)
    requires k < |Log(cs)| && Log(cs)[k].used.Some?
    ensures var log := Log(cs);
            var t := log[k];
            t.used.value == if Trusted(log) && t.sample != 0 then t.sample else t.now
  {
    OneDomainChooses(cs);
    DomainIsJudgedOnce(cs);
    assert Log(cs)[k] in Log(cs);
  }

  lemma LogMore(cs: seq<Call>, c: Call)
    ensures Log(cs + [c]) == Log(cs) + Looked(After(cs), c)
  {
    assert (cs + [c])[..|cs|] == cs;
  }

  /** In one poll the first timings find the pending ids, one each, and the others none. */
  lemma WhichFindIds(s: State, sw: Swapchain, samples: seq<Nanos>, now: Nanos, k: nat)
    requires k < |samples| && sw in s.pending
    ensures var t := Looked(s, Poll(sw, samples, now));
            && |t| == |samples| && t[k].sample == samples[k] && t[k].now == now
            && (t[k].used.Some? <==> k < |s.pending[sw]|)
  {}

  /** The documented promise: no recorded time is far from the clock of its poll. */
  ghost predicate NoneSkewed(log: seq<Timing>) {
    forall t :: t in log && t.used.Some? ==> Near(t.used.value, t.now)
  }

  /** Only the first non-zero time of a run is checked.  Over a whole run the promise is kept
      exactly when that one is far from its clock, or every non-zero time that found an id is
      near to its own. */
  lemma NoneSkewedIff(cs: seq<Call>)
    ensures var log := Log(cs);
            var first := FirstTimed(log);
            NoneSkewed(log) <==>
              || (first < |log| && !Near(log[first].sample, log[first].now))
              || forall t :: t in log && t.used.Some? && t.sample != 0 ==> Near(t.sample, t.now)
  {
    var log := Log(cs);
    OneDomainChooses(cs);
    DomainIsJudgedOnce(cs);
    if Judged(log).Unvalidated? {
      forall t | t in log ensures t.sample == 0 { var k :| 0 <= k < |log| && log[k] == t; }
    }
  }

  /** The failing case: the first poll is accepted, and the time in the second one, nine
      seconds ahead of its clock, is recorded as it is. */
  lemma SkewedTimeIsRecorded()
    ensures var cs := [Enqueue(1, 1), Enqueue(1, 2), Poll(1, [5], 5), Poll(1, [9_000_000_006], 6)];
            !NoneSkewed(Log(cs)) && Timing(9_000_000_006, 6, Some(9_000_000_006)) in Log(cs)
  {
    var c1, c2, c3 := [Enqueue(1, 1)], [Enqueue(1, 1), Enqueue(1, 2)], [Enqueue(1, 1), Enqueue(1, 2), Poll(1, [5], 5)];
    var c4 := [Enqueue(1, 1), Enqueue(1, 2), Poll(1, [5], 5), Poll(1, [9_000_000_006], 6)];
    assert c4[..3] == c3 && c3[..2] == c2 && c2[..1] == c1 && c1[..0] == [];
    assert After(c2).pending[1] == [1, 2];
    assert After(c3) == State(map[1 := [2]], Monotonic);
    var last := Looked(After(c3), c4[3]);
    assert last[0] == Timing(9_000_000_006, 6, Some(9_000_000_006));
    assert last[0] in Log(c4);
  }
}
