/** Which present each Google display timing reaches: one swapchain from its first present until
    it is forgotten, with the driver that owes a timing for every present it shows, in order. */
module TimingCorrelation {
  import opened GoogleTiming
  import opened Wrappers

  /** One vkQueuePresentKHR of the swapchain: its present id, 0 for none, and whether the driver
      will report a timing for it (it need not for a present that failed). */
  datatype Presented = Presented(id: PresentId, reported: bool)

  /** What became of an id, or of a timing. */
  datatype Entry = Evicted(id: PresentId) | Paired(id: PresentId, sample: Nanos) | Discarded(sample: Nanos)

  datatype Life = Life(
    presents: seq<Presented>,   // in the order the driver got them
    entered: nat,               // presents after which the layer has passed its enqueue
    delivered: nat,             // timings the driver has returned
    pending: seq<PresentId>,
    log: seq<Entry>)            // history: evictions and timings, in order

  datatype Event =
    | Present(p: Presented)         // the driver's part of the call
    | Enter                         // the layer's part: enqueue, if there is an id
    | Deliver(samples: seq<Nanos>)  // a poll that returns the next timings

  // ----- Presents of one kind

  /** The numbers of the presents for which f holds, in order. */
  ghost function Where(ps: seq<Presented>, f: Presented -> bool): (r: seq<nat>)
  {
    if ps == [] then []
    else
      var n := |ps| - 1;
      Where(ps[..n], f) + if f(ps[n]) then [n] else []
  }

  function HasId(): Presented -> bool { (p: Presented) => p.id != 0 }

  function IsReported(): Presented -> bool { (p: Presented) => p.reported }

  function OnlyId(): Presented -> bool { (p: Presented) => p.id != 0 && !p.reported }

  function OnlyReported(): Presented -> bool { (p: Presented) => p.id == 0 && p.reported }

  /** How many of the presents satisfy f. */
  ghost function Count(ps: seq<Presented>, f: Presented -> bool): nat { |Where(ps, f)| }

  // ----- Steps

  ghost predicate Enabled(s: Life, e: Event) {
    match e
    case Present(_) => s.entered == |s.presents|   // the swapchain is externally synchronized
    case Enter => s.entered < |s.presents|
    // Only swapchains with an entry are polled, and the first enqueue makes it.
    case Deliver(samples) =>
      && s.entered <= |s.presents| && Where(s.presents[..s.entered], HasId()) != []
      && s.delivered + |samples| <= Count(s.presents, IsReported())
  }

  ghost function Entered(s: Life, id: PresentId): Life {
    var s' := s.(entered := s.entered + 1);
    if id == 0 then s'
    else s'.(pending := Enqueued(s.pending, id),
             log := if |s.pending| >= PENDING_CAP then s.log + [Evicted(s.pending[0])] else s.log)
  }

  /** What the timings of one poll become. */
  ghost function Outcomes(fifo: seq<PresentId>, samples: seq<Nanos>): (r: seq<Entry>)
    ensures |r| == |samples|
    ensures forall k :: 0 <= k < |r| ==>
              r[k] == if k < |fifo| then Paired(fifo[k], samples[k]) else Discarded(samples[k])
  {
    seq(|samples|, k requires 0 <= k < |samples| =>
      if k < |fifo| then Paired(fifo[k], samples[k]) else Discarded(samples[k]))
  }

  ghost function Apply(s: Life, e: Event): Life
    requires Enabled(s, e)
  {
    match e
    case Present(p) => s.(presents := s.presents + [p])
    case Enter => Entered(s, s.presents[s.entered].id)
    case Deliver(samples) =>
      s.(delivered := s.delivered + |samples|,
         pending := s.pending[PairCount(s.pending, samples)..],
         log := s.log + Outcomes(s.pending, samples))
  }

  const FRESH: Life := Life([], 0, 0, [], [])

  ghost function After(es: seq<Event>): Option<Life> {
    if es == [] then Some(FRESH)
    else
      var before := After(es[..|es| - 1]);
      if before.Some? && Enabled(before.value, es[|es| - 1])
      then Some(Apply(before.value, es[|es| - 1])) else None
  }

  /** The pairs the log has are the ones the worker records. */
  lemma LoggedAsRecorded(fifo: seq<PresentId>, d: Domain, samples: seq<Nanos>, now: Nanos, k: nat)
    requires k < PairCount(fifo, samples)
    ensures Outcomes(fifo, samples)[k] == Paired(Recorded(fifo, d, samples, now)[k].0, samples[k])
  {}

  // ----- Ids are conserved

  /** The ids that have left the FIFO, in order. */
  ghost function Gone(log: seq<Entry>): seq<PresentId> {
    if log == [] then []
    else
      var last := log[|log| - 1];
      Gone(log[..|log| - 1]) + if last.Discarded? then [] else [last.id]
  }

  ghost function Evictions(log: seq<Entry>): nat {
    if log == [] then 0 else Evictions(log[..|log| - 1]) + if log[|log| - 1].Evicted? then 1 else 0
  }

  ghost function Discards(log: seq<Entry>): nat {
    if log == [] then 0 else Discards(log[..|log| - 1]) + if log[|log| - 1].Discarded? then 1 else 0
  }

  /** Every timing the driver delivered, paired or not. */
  ghost function Timings(log: seq<Entry>): nat {
    if log == [] then 0 else Timings(log[..|log| - 1]) + if log[|log| - 1].Evicted? then 0 else 1
  }

  /** The ids that were enqueued, in order. */
  ghost function Ids(ps: seq<Presented>): seq<PresentId> {
    if ps == [] then []
    else
      var last := ps[|ps| - 1];
      Ids(ps[..|ps| - 1]) + if last.id != 0 then [last.id] else []
  }

  lemma {:induction false} GoneConcat(a: seq<Entry>, b: seq<Entry>)
    ensures Gone(a + b) == Gone(a) + Gone(b)
    ensures Timings(a + b) == Timings(a) + Timings(b)
    ensures Evictions(a + b) == Evictions(a) + Evictions(b)
    ensures Discards(a + b) == Discards(a) + Discards(b)
  {
    if b == [] {
      assert a + b == a;
    } else {
      var n := |b| - 1;
      GoneConcat(a, b[..n]);
      assert (a + b)[..|a + b| - 1] == a + b[..n];
    }
  }

  lemma GoneOne(e: Entry)
    ensures Gone([e]) == if e.Discarded? then [] else [e.id]
    ensures Timings([e]) == (if e.Evicted? then 0 else 1) && Evictions([e]) == (if e.Evicted? then 1 else 0)
    ensures Discards([e]) == if e.Discarded? then 1 else 0
  {
    assert [e][..0] == [];
  }

  /** The ids that leave in one poll are the ones at the head of the FIFO. */
  lemma {:induction false} PollTakesTheHead(fifo: seq<PresentId>, samples: seq<Nanos>)
    ensures var r, n := Outcomes(fifo, samples), PairCount(fifo, samples);
            Gone(r) == fifo[..n] && Timings(r) == |samples| && Evictions(r) == 0 && Discards(r) == |samples| - n
  {
    if samples != [] {
      var n := |samples| - 1;
      var r := Outcomes(fifo, samples);
      PollTakesTheHead(fifo, samples[..n]);
      assert r[..n] == Outcomes(fifo, samples[..n]);
      if n < |fifo| { assert fifo[..n + 1] == fifo[..n] + [fifo[n]]; }
    }
  }

  /** What has gone and what is pending is what was enqueued, and every timing is accounted for. */
  ghost predicate Conserved(s: Life) {
    && s.entered <= |s.presents|
    && Gone(s.log) + s.pending == Ids(s.presents[..s.entered])
    && |s.pending| <= PENDING_CAP
    && Timings(s.log) == s.delivered <= Count(s.presents, IsReported())
  }

  lemma PresentConserves(s: Life, p: Presented)
    requires Conserved(s) && Enabled(s, Present(p))
    ensures Conserved(Apply(s, Present(p)))
  {
    var ps := s.presents + [p];
    assert ps[..s.entered] == s.presents[..s.entered] && ps[..|ps| - 1] == s.presents;
  }

  lemma FullFifo(log: seq<Entry>, pending: seq<PresentId>, id: PresentId)
    requires pending != []
    ensures Gone(log + [Evicted(pending[0])]) + (pending[1..] + [id]) == Gone(log) + pending + [id]
  {
    GoneOne(Evicted(pending[0]));
    GoneConcat(log, [Evicted(pending[0])]);
    assert pending == [pending[0]] + pending[1..];
  }

  lemma EnterConserves(s: Life)
    requires Conserved(s) && Enabled(s, Enter)
    ensures Conserved(Apply(s, Enter))
  {
    var id := s.presents[s.entered].id;
    assert s.presents[..s.entered + 1][..s.entered] == s.presents[..s.entered];
    if id != 0 && |s.pending| >= PENDING_CAP {
      FullFifo(s.log, s.pending, id);
      GoneOne(Evicted(s.pending[0]));
      GoneConcat(s.log, [Evicted(s.pending[0])]);
    }
  }

  lemma Resplit<T>(gone: seq<T>, pending: seq<T>, n: nat)
    requires n <= |pending|
    ensures gone + pending[..n] + pending[n..] == gone + pending
  {}

  lemma DeliverConserves(s: Life, samples: seq<Nanos>)
    requires Conserved(s) && Enabled(s, Deliver(samples))
    ensures Conserved(Apply(s, Deliver(samples)))
  {
    var n := PairCount(s.pending, samples);
    PollTakesTheHead(s.pending, samples);
    GoneConcat(s.log, Outcomes(s.pending, samples));
    Resplit(Gone(s.log), s.pending, n);
  }

  /** Over every run, the FIFO holds the enqueued ids less those paired or evicted, oldest
      first, and never more than 256 of them. */
  lemma {:induction false} PendingIsTheRest(es: seq<Event>)
    requires After(es).Some?
    ensures Conserved(After(es).value)
  {
    if es != [] {
      var n := |es| - 1;
      var s := After(es[..n]).value;
      PendingIsTheRest(es[..n]);
      match es[n]
      case Present(p) => PresentConserves(s, p);
      case Enter => EnterConserves(s);
      case Deliver(samples) => DeliverConserves(s, samples);
    }
  }

  // ----- Where a timing goes, and whose it is

  lemma {:induction false} GoneCounts(log: seq<Entry>)
    ensures |Gone(log)| == Timings(log) + Evictions(log) - Discards(log)
  {
    if log != [] { GoneCounts(log[..|log| - 1]); }
  }

  lemma GoneAt(log: seq<Entry>, i: nat)
    requires i < |log|
    ensures !log[i].Discarded? ==> |Gone(log[..i])| < |Gone(log)| && Gone(log)[|Gone(log[..i])|] == log[i].id
    ensures !log[i].Evicted? ==> Timings(log[..i]) < Timings(log)
  {
    var upTo := log[..i + 1];
    assert upTo[..i] == log[..i];
    assert log == upTo + log[i + 1..];
    GoneConcat(upTo, log[i + 1..]);
  }

  /** The n-th timing, if it is paired, goes to the id enqueued as number n, plus the evictions
      and less the discarded timings before it. */
  lemma WhereTimingsGo(es: seq<Event>, i: nat)
    requires After(es).Some? && i < |After(es).value.log| && After(es).value.log[i].Paired?
    ensures var s := After(es).value;
            var before, ids := s.log[..i], Ids(s.presents[..s.entered]);
            var at := Timings(before) + Evictions(before) - Discards(before);
            0 <= at < |ids| && s.log[i].id == ids[at]
  {
    PendingIsTheRest(es);
    GoneAt(After(es).value.log, i);
    GoneCounts(After(es).value.log[..i]);
  }

  lemma {:induction false} IdsWhere(ps: seq<Presented>)
    ensures var w := Where(ps, HasId());
            |w| == |Ids(ps)| && forall j :: 0 <= j < |w| ==> w[j] < |ps| && ps[w[j]].id == Ids(ps)[j]
  {
    if ps != [] { IdsWhere(ps[..|ps| - 1]); }
  }

  /** The j-th present of a kind is the one with j of that kind before it. */
  lemma {:induction false} WhereIs(ps: seq<Presented>, f: Presented -> bool, j: nat, k: nat)
    requires k < |ps|
    ensures j < |Where(ps, f)| && Where(ps, f)[j] == k <==> f(ps[k]) && j == Count(ps[..k], f)
  {
    var n := |ps| - 1;
    BelowAll(ps[..n], f);
    if k < n {
      assert ps[..n][..k] == ps[..k];
      WhereIs(ps[..n], f, j, k);
    } else if j < |Where(ps[..n], f)| {
      assert Where(ps[..n], f)[j] < n;
    }
  }

  lemma {:induction false} BelowAll(ps: seq<Presented>, f: Presented -> bool)
    ensures forall j :: 0 <= j < |Where(ps, f)| ==> Where(ps, f)[j] < |ps|
  {
    if ps != [] { BelowAll(ps[..|ps| - 1], f); }
  }

  lemma {:induction false} KindsBalance(ps: seq<Presented>)
    ensures Count(ps, HasId()) + Count(ps, OnlyReported()) == Count(ps, IsReported()) + Count(ps, OnlyId())
  {
    if ps != [] { KindsBalance(ps[..|ps| - 1]); }
  }

  /** The present a timing was made for. */
  ghost function OwnerOf(s: Life, i: nat): nat
    requires Conserved(s) && i < |s.log| && !s.log[i].Evicted?
  {
    GoneAt(s.log, i);
    Where(s.presents, IsReported())[Timings(s.log[..i])]
  }

  /** The entry of the log is that timing and goes to the id of that very present. */
  ghost predicate ReachesOwner(s: Life, i: nat)
    requires Conserved(s) && i < |s.log| && !s.log[i].Evicted?
  {
    var ids, at := Where(s.presents[..s.entered], HasId()), |Gone(s.log[..i])|;
    s.log[i].Paired? && at < |ids| && ids[at] == OwnerOf(s, i)
  }

  lemma WhereOfPrefix(ps: seq<Presented>, n: nat, f: Presented -> bool, j: nat, k: nat)
    requires n <= |ps| && k < |ps| && j < |Where(ps[..n], f)|
    ensures Where(ps[..n], f)[j] == k <==> f(ps[k]) && j == Count(ps[..k], f)
  {
    BelowAll(ps[..n], f);
    if k < n {
      assert ps[..n][..k] == ps[..k];
      WhereIs(ps[..n], f, j, k);
    } else {
      CountGrows(ps, n, k, f);
    }
  }

  lemma {:induction false} CountGrows(ps: seq<Presented>, n: nat, k: nat, f: Presented -> bool)
    requires n <= k <= |ps|
    ensures Count(ps[..n], f) <= Count(ps[..k], f)
    decreases k
  {
    if n < k {
      assert ps[..k][..k - 1] == ps[..k - 1];
      CountGrows(ps, n, k - 1, f);
    }
  }

  /** Over every run, a timing reaches its own present exactly when it found an id, the present
      has one, and what shifts the pairing has balanced out before it: evictions and presents
      without an id one way, discarded timings and presents that were never reported the other. */
  lemma ReachesOwnerIff(es: seq<Event>, i: nat)
    requires After(es).Some? && i < |After(es).value.log| && !After(es).value.log[i].Evicted?
    ensures var s := After(es).value;
            && Conserved(s) && OwnerOf(s, i) < |s.presents|
            && (ReachesOwner(s, i) <==>
                  var k, before := OwnerOf(s, i), s.log[..i];
                  && s.log[i].Paired? && s.presents[k].id != 0
                  && Evictions(before) + Count(s.presents[..k], OnlyReported())
                     == Discards(before) + Count(s.presents[..k], OnlyId()))
            && (ReachesOwner(s, i) ==> s.log[i].id == s.presents[OwnerOf(s, i)].id)
  {
    PendingIsTheRest(es);
    var s := After(es).value;
    var before, entered := s.log[..i], s.presents[..s.entered];
    GoneAt(s.log, i);
    GoneCounts(before);
    BelowAll(s.presents, IsReported());
    IdsWhere(entered);
    var k := OwnerOf(s, i);
    WhereIs(s.presents, IsReported(), Timings(before), k);
    KindsBalance(s.presents[..k]);
    if s.log[i].Paired? {
      WhereOfPrefix(s.presents, s.entered, HasId(), |Gone(before)|, k);
    }
  }

  /** Present ids grow, as VK_KHR_present_id demands. */
  ghost predicate IdsGrow(ps: seq<Presented>) {
    forall j, k :: 0 <= j < k < |ps| && ps[j].id != 0 && ps[k].id != 0 ==> ps[j].id < ps[k].id
  }

  /** Then a timing is recorded under its own present's id exactly when it reaches its present. */
  lemma OwnIdIff(es: seq<Event>, i: nat)
    requires After(es).Some? && i < |After(es).value.log| && After(es).value.log[i].Paired?
    requires IdsGrow(After(es).value.presents)
    ensures var s := After(es).value;
            && Conserved(s) && OwnerOf(s, i) < |s.presents|
            && (s.log[i].id == s.presents[OwnerOf(s, i)].id <==> ReachesOwner(s, i))
  {
    ReachesOwnerIff(es, i);
    var s := After(es).value;
    var entered := s.presents[..s.entered];
    GoneAt(s.log, i);
    IdsWhere(entered);
    IdsNonZero(entered);
  }

  lemma {:induction false} IdsNonZero(ps: seq<Presented>)
    ensures forall j :: 0 <= j < |Ids(ps)| ==> Ids(ps)[j] != 0
  {
    if ps != [] { IdsNonZero(ps[..|ps| - 1]); }
  }

  // ----- Runs without a shift

  /** Every timing so far has reached its present. */
  ghost predicate Exact(s: Life)
    requires Conserved(s)
  {
    forall i :: 0 <= i < |s.log| && !s.log[i].Evicted? ==> ReachesOwner(s, i)
  }

  ghost function AllIds(ps: seq<Presented>): (r: seq<PresentId>)
    ensures |r| == |ps| && forall k :: 0 <= k < |r| ==> r[k] == ps[k].id
  {
    seq(|ps|, k requires 0 <= k < |ps| => ps[k].id)
  }

  /** And the next ones will: what is pending are the ids of the presents still owed a timing. */
  ghost predicate Aligned(s: Life) {
    s.delivered <= s.entered <= |s.presents| && s.pending == AllIds(s.presents[s.delivered..s.entered])
  }

  /** What would have to be checked before a step to keep the pairing right: the present has an
      id and the FIFO has room for it, and a poll brings no more timings than ids are pending. */
  ghost predicate Guard(s: Life, e: Event)
    requires Enabled(s, e)
  {
    match e
    case Present(_) => true
    case Enter => s.presents[s.entered].id != 0 && |s.pending| < PENDING_CAP
    case Deliver(samples) => |samples| <= |s.pending|
  }

  ghost predicate Clean(es: seq<Event>)
    requires After(es).Some?
  {
    es == [] || (Clean(es[..|es| - 1]) && Guard(After(es[..|es| - 1]).value, es[|es| - 1]))
  }

  lemma {:induction false} CountAtMost(ps: seq<Presented>, f: Presented -> bool)
    ensures Count(ps, f) <= |ps|
    ensures Count(ps, f) == |ps| <==> forall k :: 0 <= k < |ps| ==> f(ps[k])
    ensures Count(ps, f) == 0 <==> forall k :: 0 <= k < |ps| ==> !f(ps[k])
  {
    if ps != [] { CountAtMost(ps[..|ps| - 1], f); }
  }

  ghost predicate Unshifted(s: Life) {
    && s.entered <= |s.presents| && Count(s.presents[..s.entered], HasId()) == s.entered
    && Evictions(s.log) == 0 && Discards(s.log) == 0
  }

  lemma CountNext(ps: seq<Presented>, k: nat, f: Presented -> bool)
    requires k < |ps|
    ensures Count(ps[..k + 1], f) == Count(ps[..k], f) + (if f(ps[k]) then 1 else 0) && Count(ps[..k], f) <= k
  {
    assert ps[..k + 1][..k] == ps[..k];
    CountAtMost(ps[..k], f);
  }

  lemma EvictOne(log: seq<Entry>, id: PresentId)
    ensures Evictions(log + [Evicted(id)]) == Evictions(log) + 1 && Discards(log + [Evicted(id)]) == Discards(log)
  {
    GoneOne(Evicted(id));
    GoneConcat(log, [Evicted(id)]);
  }

  lemma EnterKeepsCounts(s: Life)
    requires Conserved(s) && Enabled(s, Enter)
    ensures Unshifted(Apply(s, Enter)) <==> Unshifted(s) && Guard(s, Enter)
  {
    CountNext(s.presents, s.entered, HasId());
    if s.pending != [] { EvictOne(s.log, s.pending[0]); }
  }

  lemma DeliverKeepsCounts(s: Life, samples: seq<Nanos>)
    requires Conserved(s) && Enabled(s, Deliver(samples))
    ensures Unshifted(Apply(s, Deliver(samples))) <==> Unshifted(s) && Guard(s, Deliver(samples))
  {
    PollTakesTheHead(s.pending, samples);
    GoneConcat(s.log, Outcomes(s.pending, samples));
  }

  lemma GuardsKeepCounts(s: Life, e: Event)
    requires Conserved(s) && Enabled(s, e)
    ensures Unshifted(Apply(s, e)) <==> Unshifted(s) && Guard(s, e)
  {
    match e
    case Present(p) => assert (s.presents + [p])[..s.entered] == s.presents[..s.entered];
    case Enter => EnterKeepsCounts(s);
    case Deliver(samples) => DeliverKeepsCounts(s, samples);
  }

  lemma {:induction false} CleanCounts(es: seq<Event>)
    requires After(es).Some?
    ensures Clean(es) <==> Unshifted(After(es).value)
  {
    if es != [] {
      var n := |es| - 1;
      CleanCounts(es[..n]);
      PendingIsTheRest(es[..n]);
      GuardsKeepCounts(After(es[..n]).value, es[n]);
    }
  }

  lemma {:induction false} NoDiscards(log: seq<Entry>)
    ensures Discards(log) == 0 <==> forall i :: 0 <= i < |log| ==> !log[i].Discarded?
    ensures Evictions(log) == 0 <==> forall i :: 0 <= i < |log| ==> !log[i].Evicted?
  {
    if log != [] { NoDiscards(log[..|log| - 1]); }
  }

  lemma {:induction false} WithIdsAll(ps: seq<Presented>)
    requires forall k :: 0 <= k < |ps| ==> ps[k].id != 0
    ensures Ids(ps) == AllIds(ps)
  {
    if ps != [] { WithIdsAll(ps[..|ps| - 1]); }
  }

  lemma UnshiftedIsAligned(s: Life)
    requires Conserved(s) && Unshifted(s)
    ensures Aligned(s) && |Gone(s.log)| == s.delivered
  {
    var entered := s.presents[..s.entered];
    CountAtMost(entered, HasId());
    WithIdsAll(entered);
    GoneCounts(s.log);
    assert s.pending == AllIds(entered)[s.delivered..];
  }

  lemma OnlyPlainPresents(ps: seq<Presented>)
    requires forall p :: p in ps ==> p.reported && p.id != 0
    ensures Count(ps, OnlyId()) == 0 && Count(ps, OnlyReported()) == 0 && Count(ps, IsReported()) == |ps|
  {
    CountAtMost(ps, OnlyId());
    CountAtMost(ps, OnlyReported());
    CountAtMost(ps, IsReported());
  }

  lemma UnshiftedOwner(s: Life, i: nat)
    requires Conserved(s) && Unshifted(s) && i < |s.log| && !s.log[i].Evicted?
    requires forall p :: p in s.presents ==> p.reported
    ensures OwnerOf(s, i) < s.entered
    ensures forall p :: p in s.presents[..s.entered] ==> p.id != 0
  {
    var n := Timings(s.log[..i]);
    GoneAt(s.log, i);
    UnshiftedIsAligned(s);
    BelowAll(s.presents, IsReported());
    var k := OwnerOf(s, i);
    WhereIs(s.presents, IsReported(), n, k);
    CountAtMost(s.presents[..k], IsReported());
    CountAtMost(s.presents[..s.entered], HasId());
  }

  lemma UnshiftedReaches(es: seq<Event>, i: nat)
    requires After(es).Some? && Unshifted(After(es).value) && Conserved(After(es).value)
    requires forall p :: p in After(es).value.presents ==> p.reported
    requires i < |After(es).value.log| && !After(es).value.log[i].Evicted?
    ensures ReachesOwner(After(es).value, i)
  {
    var s := After(es).value;
    ReachesOwnerIff(es, i);
    UnshiftedOwner(s, i);
    var k := OwnerOf(s, i);
    assert s.presents[..s.entered][k] in s.presents[..s.entered];
    assert s.presents[..k] == s.presents[..s.entered][..k];
    OnlyPlainPresents(s.presents[..k]);
    NoDiscards(s.log);
    NoDiscards(s.log[..i]);
  }

  /** As long as the driver reports every present: over every run, all timings have reached
      their presents and the next ones will exactly when every step kept its guard. */
  lemma ExactIffClean(es: seq<Event>)
    requires After(es).Some?
    requires forall p :: p in After(es).value.presents ==> p.reported
    ensures Conserved(After(es).value)
    ensures Exact(After(es).value) && Aligned(After(es).value) <==> Clean(es)
  {
    PendingIsTheRest(es);
    CleanCounts(es);
    var s := After(es).value;
    if Clean(es) {
      UnshiftedIsAligned(s);
      forall i | 0 <= i < |s.log| && !s.log[i].Evicted? ensures ReachesOwner(s, i) { UnshiftedReaches(es, i); }
    }
    if Exact(s) && Aligned(s) {
      GoneCounts(s.log);
      NoDiscards(s.log);
      IdsWhere(s.presents[..s.entered]);
      CountAtMost(s.presents[..s.entered], HasId());
    }
  }

  // ----- Runs with a shift

  ghost predicate Reachable(s: Life) { exists es :: After(es) == Some(s) }

  /** A property of the fresh state that every step keeps. */
  ghost predicate Closed(r: Life -> bool) {
    r(FRESH) && forall s, e :: r(s) && Enabled(s, e) ==> r(Apply(s, e))
  }

  lemma ReachableIsClosed()
    ensures Closed(s => Reachable(s))
  {
    assert After([]) == Some(FRESH);
    forall s, e | Reachable(s) && Enabled(s, e) ensures Reachable(Apply(s, e)) {
      var es :| After(es) == Some(s);
      assert (es + [e])[..|es|] == es;
      assert After(es + [e]) == Some(Apply(s, e));
    }
  }

  lemma PresentMore(r: Life -> bool, s: Life, p: Presented, s': Life)
    requires Closed(r) && r(s) && s.entered == |s.presents| && s' == s.(presents := s.presents + [p])
    ensures r(s')
  {
    assert s' == Apply(s, Present(p));
  }

  lemma EnterMore(r: Life -> bool, s: Life, s': Life)
    requires Closed(r) && r(s) && s.entered < |s.presents| && |s.pending| < PENDING_CAP
    requires var id := s.presents[s.entered].id;
             s' == s.(entered := s.entered + 1, pending := if id == 0 then s.pending else s.pending + [id])
    ensures r(s')
  {
    assert s' == Apply(s, Enter);
  }

  lemma DeliverMore(r: Life -> bool, s: Life, sample: Nanos, s': Life)
    requires Closed(r) && r(s) && 0 < s.entered <= |s.presents| && s.presents[0].id != 0
    requires s.delivered < |s.presents| && forall p :: p in s.presents ==> p.reported
    requires s' == if s.pending == [] then s.(delivered := s.delivered + 1, log := s.log + [Discarded(sample)])
                   else s.(delivered := s.delivered + 1, pending := s.pending[1..],
                           log := s.log + [Paired(s.pending[0], sample)])
    ensures r(s')
  {
    var entered := s.presents[..s.entered];
    CountAtMost(s.presents, IsReported());
    CountAtMost(entered, HasId());
    assert HasId()(entered[0]);
    assert s' == Apply(s, Deliver([sample]));
  }

  /** One present, all the way to the layer's enqueue. */
  lemma Frame(r: Life -> bool, s: Life, p: Presented, s': Life)
    requires Closed(r) && r(s) && s.entered == |s.presents| && |s.pending| < PENDING_CAP
    requires s' == Life(s.presents + [p], s.entered + 1, s.delivered,
                        if p.id == 0 then s.pending else s.pending + [p.id], s.log)
    ensures r(s')
  {
    PresentMore(r, s, p, s.(presents := s.presents + [p]));
    EnterMore(r, s.(presents := s.presents + [p]), s');
  }

  /** All three presents are reported, so timing n was made for present n. */
  lemma OwnerIsNth(s: Life, i: nat)
    requires Conserved(s) && i < |s.log| && !s.log[i].Evicted?
    requires forall p :: p in s.presents ==> p.reported
    ensures OwnerOf(s, i) == Timings(s.log[..i])
  {
    GoneAt(s.log, i);
    BelowAll(s.presents, IsReported());
    var k := OwnerOf(s, i);
    WhereIs(s.presents, IsReported(), Timings(s.log[..i]), k);
    CountAtMost(s.presents[..k], IsReported());
  }

  /** Entry i is the timing of present k and was given to the id of another present. */
  ghost predicate GoesAstray(s: Life, i: nat, k: nat) {
    && Conserved(s) && i < |s.log| && !s.log[i].Evicted?
    && OwnerOf(s, i) == k && !ReachesOwner(s, i)
  }

  lemma {:induction false} TimingsCount(log: seq<Entry>)
    requires forall i :: 0 <= i < |log| ==> !log[i].Evicted?
    ensures Timings(log) == |log|
  {
    if log != [] { TimingsCount(log[..|log| - 1]); }
  }

  lemma LastGoesAstray(s: Life, i: nat)
    requires Reachable(s) && i < |s.log| && i < |s.presents| && s.log[i].Paired?
    requires forall j :: 0 <= j < |s.log| ==> !s.log[j].Evicted?
    requires forall p :: p in s.presents ==> p.reported
    requires s.log[i].id != s.presents[i].id
    ensures GoesAstray(s, i, i)
  {
    var es :| After(es) == Some(s);
    PendingIsTheRest(es);
    OwnerIsNth(s, i);
    TimingsCount(s.log[..i]);
    ReachesOwnerIff(es, i);
  }

  /** The second present's timing comes before its enqueue. */
  lemma EarlyTiming(r: Life -> bool, p1: Presented, p2: Presented, x: Nanos, y: Nanos)
    requires Closed(r) && p1.reported && p2.reported && p1.id != 0 && p2.id != 0
    ensures r(Life([p1, p2], 2, 2, [p2.id], [Paired(p1.id, x), Discarded(y)]))
  {
    var s1 := Life([p1], 1, 0, [p1.id], []);
    var s2 := Life([p1], 1, 1, [], [Paired(p1.id, x)]);
    var s3 := Life([p1, p2], 1, 1, [], [Paired(p1.id, x)]);
    var s4 := Life([p1, p2], 1, 2, [], [Paired(p1.id, x), Discarded(y)]);
    Frame(r, FRESH, p1, s1);
    DeliverMore(r, s1, x, s2);
    PresentMore(r, s2, p2, s3);
    DeliverMore(r, s3, y, s4);
    EnterMore(r, s4, Life([p1, p2], 2, 2, [p2.id], s4.log));
  }

  lemma AfterEarlyTiming(r: Life -> bool, p1: Presented, p2: Presented, p3: Presented, x: Nanos, y: Nanos, z: Nanos)
    requires Closed(r) && p1.reported && p2.reported && p3.reported && 0 < p1.id < p2.id < p3.id
    ensures r(Life([p1, p2, p3], 3, 3, [p3.id], [Paired(p1.id, x), Discarded(y), Paired(p2.id, z)]))
  {
    EarlyTiming(r, p1, p2, x, y);
    var s5 := Life([p1, p2], 2, 2, [p2.id], [Paired(p1.id, x), Discarded(y)]);
    var s6 := Life([p1, p2, p3], 3, 2, [p2.id, p3.id], s5.log);
    Frame(r, s5, p3, s6);
    DeliverMore(r, s6, z, Life([p1, p2, p3], 3, 3, [p3.id], [Paired(p1.id, x), Discarded(y), Paired(p2.id, z)]));
  }

  /** A timing that the driver delivers before the layer's part of the present has run is
      discarded; the next timing, made for the third present, then goes to the second. */
  lemma EarlyTimingShiftsTheRest(p1: Presented, p2: Presented, p3: Presented, x: Nanos, y: Nanos, z: Nanos)
    returns (s: Life)
    requires p1.reported && p2.reported && p3.reported && 0 < p1.id < p2.id < p3.id
    ensures Reachable(s) && s.presents == [p1, p2, p3]
    ensures s.log == [Paired(p1.id, x), Discarded(y), Paired(p2.id, z)] && GoesAstray(s, 2, 2)
  {
    ReachableIsClosed();
    AfterEarlyTiming(t => Reachable(t), p1, p2, p3, x, y, z);
    s := Life([p1, p2, p3], 3, 3, [p3.id], [Paired(p1.id, x), Discarded(y), Paired(p2.id, z)]);
    LastGoesAstray(s, 2);
  }

  /** The second present has no id. */
  lemma AnonymousPresent(r: Life -> bool, p1: Presented, p2: Presented, p3: Presented)
    requires Closed(r) && p1.id != 0 && p2.id == 0 && p3.id != 0
    ensures r(Life([p1, p2, p3], 3, 0, [p1.id, p3.id], []))
  {
    var s1, s2 := Life([p1], 1, 0, [p1.id], []), Life([p1, p2], 2, 0, [p1.id], []);
    Frame(r, FRESH, p1, s1);
    Frame(r, s1, p2, s2);
    Frame(r, s2, p3, Life([p1, p2, p3], 3, 0, [p1.id, p3.id], []));
  }

  lemma AfterAnonymousPresent(r: Life -> bool, p1: Presented, p2: Presented, p3: Presented, x: Nanos, y: Nanos)
    requires Closed(r) && p1.reported && p2.reported && p3.reported && p1.id != 0 && p2.id == 0 && p3.id != 0
    ensures r(Life([p1, p2, p3], 3, 2, [], [Paired(p1.id, x), Paired(p3.id, y)]))
  {
    AnonymousPresent(r, p1, p2, p3);
    var s3 := Life([p1, p2, p3], 3, 0, [p1.id, p3.id], []);
    var s4 := Life([p1, p2, p3], 3, 1, [p3.id], [Paired(p1.id, x)]);
    DeliverMore(r, s3, x, s4);
    DeliverMore(r, s4, y, Life([p1, p2, p3], 3, 2, [], [Paired(p1.id, x), Paired(p3.id, y)]));
  }

  /** A present without an id is timed but not enqueued: its timing goes to the present after. */
  lemma AnonymousPresentShiftsTheRest(p1: Presented, p2: Presented, p3: Presented, x: Nanos, y: Nanos)
    returns (s: Life)
    requires p1.reported && p2.reported && p3.reported && p1.id != 0 && p2.id == 0 && p3.id != 0
    ensures Reachable(s) && s.presents == [p1, p2, p3]
    ensures s.log == [Paired(p1.id, x), Paired(p3.id, y)] && GoesAstray(s, 1, 1)
  {
    ReachableIsClosed();
    AfterAnonymousPresent(t => Reachable(t), p1, p2, p3, x, y);
    s := Life([p1, p2, p3], 3, 2, [], [Paired(p1.id, x), Paired(p3.id, y)]);
    LastGoesAstray(s, 1);
  }
}
