/** The bounded wait of the swapchain monitor: every span of every group is awaited against
    one shared deadline.  Time passes in ticks, one per has_completed probe. */
module SpanWait {
  import opened HostClock
  import opened QueueSpans
  import opened Wrappers

  /** Submission spans tagged with the present they belong to. */
  datatype Group = Group(presentId: PresentId, spans: seq<Span>)

  /** Host-monotonic times of a span's GPU work. */
  datatype Times = Times(startNs: nat, endNs: nat)

  /** The world a wait runs in: the host clock and the GPU, both read at successive ticks. */
  datatype World = World(
    clock: nat -> nat,
    ended: (HandleId, nat) -> bool,   // has_end at that tick
    times: Span -> Option<Times>)     // completion_times_ns, None without a device clock

  // ----- One span

  datatype Waited = Waited(done: bool, next: nat)

  ghost function Await(w: World, deadline: nat, h: HandleId, tick: nat): Waited
    requires Advancing(w.clock)
    decreases Left(w.clock, deadline, tick)
  {
    assert Ticks(w.clock, tick);
    if w.ended(h, tick) then Waited(true, tick + 1)
    else if w.clock(tick) >= deadline then Waited(false, tick + 1)
    else Await(w, deadline, h, tick + 1)
  }

  /** await_completed_until terminates on every advancing clock. */
  method AwaitCompletedUntil(w: World, deadline: nat, span: Span, tick: nat) returns (r: Waited)
    requires Advancing(w.clock)
    ensures r == Await(w, deadline, span.Last(), tick)
  {
    var now := tick;
    while true
      invariant Await(w, deadline, span.Last(), now) == Await(w, deadline, span.Last(), tick)
      decreases Left(w.clock, deadline, now)
    {
      assert Ticks(w.clock, now);
      if w.ended(span.Last(), now) { return Waited(true, now + 1); }
      if w.clock(now) >= deadline { return Waited(false, now + 1); }
      now := now + 1;
    }
  }

  /** The probe at tick k is the first that sees the GPU done, and the deadline had not been seen. */
  ghost predicate CompletesAt(w: World, deadline: nat, h: HandleId, tick: nat, k: nat) {
    tick <= k && w.ended(h, k) && forall j :: tick <= j < k ==> !w.ended(h, j) && w.clock(j) < deadline
  }

  /** The wait succeeds exactly when the GPU work is seen finished before the deadline is, and
      it spends at most one probe more than the budget it uses up. */
  lemma {:induction false} AwaitMeans(w: World, deadline: nat, h: HandleId, tick: nat)
    requires Advancing(w.clock)
    ensures var r := Await(w, deadline, h, tick);
            && (r.done <==> exists k :: CompletesAt(w, deadline, h, tick, k))
            && tick < r.next <= tick + 1 + Left(w.clock, deadline, tick) - Left(w.clock, deadline, r.next)
            && (!r.done ==> w.clock(r.next - 1) >= deadline)
    decreases Left(w.clock, deadline, tick)
  {
    assert Ticks(w.clock, tick);
    var r := Await(w, deadline, h, tick);
    if w.ended(h, tick) {
      assert CompletesAt(w, deadline, h, tick, tick);
    } else if w.clock(tick) < deadline {
      AwaitMeans(w, deadline, h, tick + 1);
      if r.done {
        var k :| CompletesAt(w, deadline, h, tick + 1, k);
        assert CompletesAt(w, deadline, h, tick, k);
      }
      forall k | CompletesAt(w, deadline, h, tick, k) ensures r.done {
        assert CompletesAt(w, deadline, h, tick + 1, k);
      }
    }
  }

  // ----- One group, then all groups

  datatype GroupWait = GroupWait(done: nat, next: nat)

  /** Awaits spans[i..] until the first that times out; done counts from the group's start. */
  ghost function AwaitSpans(w: World, deadline: nat, spans: seq<Span>, i: nat, tick: nat): GroupWait
    requires Advancing(w.clock) && i <= |spans|
    decreases |spans| - i
  {
    if i == |spans| then GroupWait(i, tick)
    else
      var r := Await(w, deadline, spans[i].Last(), tick);
      if r.done then AwaitSpans(w, deadline, spans, i + 1, r.next) else GroupWait(i, r.next)
  }

  datatype Recorded = Recorded(presentId: PresentId, times: Times)

  /** The GPU timings the monitor hands to the marker history for the completed spans. */
  ghost function Timings(w: World, presentId: PresentId, spans: seq<Span>): seq<Recorded> {
    if spans == [] then []
    else
      var before, t := Timings(w, presentId, spans[..|spans| - 1]), w.times(spans[|spans| - 1]);
      before + if t.Some? then [Recorded(presentId, t.value)] else []
  }

  datatype AllWait = AllWait(done: seq<nat>, records: seq<Recorded>, next: nat)

  /** All groups, in order: how many spans of each completed, and what was recorded. */
  ghost function AwaitGroups(w: World, deadline: nat, groups: seq<Group>, tick: nat): AllWait
    requires Advancing(w.clock)
  {
    if groups == [] then AllWait([], [], tick)
    else
      var n := |groups| - 1;
      var before := AwaitGroups(w, deadline, groups[..n], tick);
      var g := AwaitSpans(w, deadline, groups[n].spans, 0, before.next);
      AwaitSpansBound(w, deadline, groups[n].spans, 0, before.next);
      AllWait(before.done + [g.done],
              before.records + Timings(w, groups[n].presentId, groups[n].spans[..g.done]),
              g.next)
  }

  lemma {:induction false} AwaitSpansBound(w: World, deadline: nat, spans: seq<Span>, i: nat, tick: nat)
    requires Advancing(w.clock) && i <= |spans|
    ensures var g := AwaitSpans(w, deadline, spans, i, tick);
            && i <= g.done <= |spans|
            && tick <= g.next
            && (g.done < |spans| ==> g.next > tick && w.clock(g.next - 1) >= deadline)
            && g.next - tick <= Left(w.clock, deadline, tick) - Left(w.clock, deadline, g.next) + |spans| - i
    decreases |spans| - i
  {
    if i < |spans| {
      AwaitMeans(w, deadline, spans[i].Last(), tick);
      var r := Await(w, deadline, spans[i].Last(), tick);
      if r.done { AwaitSpansBound(w, deadline, spans, i + 1, r.next); }
    }
  }

  /** The spans of one group, until the first that times out; the times of the others. */
  method WaitForGroup(w: World, deadline: nat, group: Group, tick: nat)
    returns (done: nat, records: seq<Recorded>, next: nat)
    requires Advancing(w.clock)
    ensures GroupWait(done, next) == AwaitSpans(w, deadline, group.spans, 0, tick) && done <= |group.spans|
    ensures records == Timings(w, group.presentId, group.spans[..done])
  {
    done, records, next := 0, [], tick;
    while done < |group.spans|
      invariant done <= |group.spans|
      invariant AwaitSpans(w, deadline, group.spans, 0, tick) == AwaitSpans(w, deadline, group.spans, done, next)
      invariant records == Timings(w, group.presentId, group.spans[..done])
    {
      var one := AwaitCompletedUntil(w, deadline, group.spans[done], next);
      next := one.next;
      if !one.done { return; }
      var times := w.times(group.spans[done]);
      if times.Some? { records := records + [Recorded(group.presentId, times.value)]; }
      assert group.spans[..done + 1][..done] == group.spans[..done];
      done := done + 1;
    }
  }

  /** The wait of SwapchainMonitor's worker for one signal. */
  method WaitForGroups(w: World, deadline: nat, groups: seq<Group>, tick: nat) returns (r: AllWait)
    requires Advancing(w.clock)
    ensures r == AwaitGroups(w, deadline, groups, tick)
  {
    var done: seq<nat>, records: seq<Recorded>, now := [], [], tick;
    for g := 0 to |groups|
      invariant AllWait(done, records, now) == AwaitGroups(w, deadline, groups[..g], tick)
    {
      var groupDone, groupRecords, next := WaitForGroup(w, deadline, groups[g], now);
      assert groups[..g + 1][..g] == groups[..g];
      done, records, now := done + [groupDone], records + groupRecords, next;
    }
    assert groups[..|groups|] == groups;
    return AllWait(done, records, now);
  }

  ghost function SpanCount(groups: seq<Group>): nat {
    if groups == [] then 0 else SpanCount(groups[..|groups| - 1]) + |groups[|groups| - 1].spans|
  }

  /** One deadline for everything: whatever the GPU does, the whole wait takes at most the
      budget plus one probe per span, and a group is cut short only after the deadline. */
  lemma {:induction false} WholeWaitIsBounded(w: World, deadline: nat, groups: seq<Group>, tick: nat)
    requires Advancing(w.clock)
    ensures var r := AwaitGroups(w, deadline, groups, tick);
            && |r.done| == |groups|
            && tick <= r.next
            && r.next - tick <= Left(w.clock, deadline, tick) - Left(w.clock, deadline, r.next) + SpanCount(groups)
            && forall g :: 0 <= g < |groups| ==>
                 r.done[g] <= |groups[g].spans| &&
                 (r.done[g] < |groups[g].spans| ==> exists t :: tick <= t < r.next && w.clock(t) >= deadline)
  {
    if groups != [] {
      var n := |groups| - 1;
      WholeWaitIsBounded(w, deadline, groups[..n], tick);
      var before := AwaitGroups(w, deadline, groups[..n], tick);
      AwaitSpansBound(w, deadline, groups[n].spans, 0, before.next);
      var r := AwaitGroups(w, deadline, groups, tick);
      forall g | 0 <= g < |groups|
        ensures r.done[g] <= |groups[g].spans|
        ensures r.done[g] < |groups[g].spans| ==> exists t :: tick <= t < r.next && w.clock(t) >= deadline
      {
        if g < n { assert groups[..n][g] == groups[g]; }
        else if r.done[g] < |groups[g].spans| { assert w.clock(r.next - 1) >= deadline; }
      }
    }
  }

  // ----- What was awaited, and what was recorded

  /** The handle whose end timestamp completes a span: its tail's, or its head's without one. */
  ghost predicate Completes(span: Span, h: HandleId) {
    match span.tail
    case Some(t) => h == t
    case None => h == span.head
  }

  /** Probing from one tick to another ended with the span seen finished, the deadline not
      having been seen. */
  ghost predicate SeenDone(w: World, deadline: nat, span: Span, start: nat, last: nat) {
    && start <= last
    && forall h :: Completes(span, h) ==>
         w.ended(h, last) && forall j :: start <= j < last ==> !w.ended(h, j) && w.clock(j) < deadline
  }

  /** Probing ended with the deadline seen, the span never having been seen finished. */
  ghost predicate TimedOut(w: World, deadline: nat, span: Span, start: nat, last: nat) {
    && start <= last && w.clock(last) >= deadline
    && forall h, j :: Completes(span, h) && start <= j <= last ==> !w.ended(h, j)
  }

  /** Probing of the spans of a group, each from right after the one before it ended: the first
      done ones were seen finished, and the next one, if there is one, timed out. */
  ghost predicate Awaited(w: World, deadline: nat, spans: seq<Span>, done: nat, start: nat, next: nat)
    decreases |spans|
  {
    if spans == [] then done == 0 && next == start
    else exists last :: start <= last < next && AwaitedVia(w, deadline, spans, done, start, next, last)
  }

  ghost predicate AwaitedVia(w: World, deadline: nat, spans: seq<Span>, done: nat, start: nat, next: nat, last: nat)
    requires spans != []
    decreases |spans|, 0
  {
    if done == 0 then TimedOut(w, deadline, spans[0], start, last) && next == last + 1
    else SeenDone(w, deadline, spans[0], start, last) &&
         (last + 1 <= next && Awaited(w, deadline, spans[1..], done - 1, last + 1, next))
  }

  /** The groups one after the other. */
  ghost predicate AllAwaited(w: World, deadline: nat, groups: seq<Group>, done: seq<nat>, start: nat, next: nat)
    requires |done| == |groups|
    decreases |groups|
  {
    if groups == [] then next == start
    else exists mid :: start <= mid <= next && AllAwaitedVia(w, deadline, groups, done, start, next, mid)
  }

  ghost predicate AllAwaitedVia(w: World, deadline: nat, groups: seq<Group>, done: seq<nat>,
                                start: nat, next: nat, mid: nat)
    requires |done| == |groups| > 0
    decreases |groups|, 0
  {
    var n := |groups| - 1;
    && AllAwaited(w, deadline, groups[..n], done[..n], start, mid)
    && Awaited(w, deadline, groups[n].spans, done[n], mid, next)
  }

  lemma OneSpan(w: World, deadline: nat, span: Span, tick: nat)
    requires Advancing(w.clock)
    ensures var r := Await(w, deadline, span.Last(), tick);
            && r.next > tick
            && if r.done then SeenDone(w, deadline, span, tick, r.next - 1)
               else TimedOut(w, deadline, span, tick, r.next - 1)
  {
    AwaitStops(w, deadline, span.Last(), tick);
  }

  lemma {:induction false} AwaitStops(w: World, deadline: nat, h: HandleId, tick: nat)
    requires Advancing(w.clock)
    ensures var r := Await(w, deadline, h, tick);
            && r.next > tick
            && (forall j :: tick <= j < r.next - 1 ==> !w.ended(h, j) && w.clock(j) < deadline)
            && (if r.done then w.ended(h, r.next - 1) else !w.ended(h, r.next - 1) && w.clock(r.next - 1) >= deadline)
    decreases Left(w.clock, deadline, tick)
  {
    assert Ticks(w.clock, tick);
    if !w.ended(h, tick) && w.clock(tick) < deadline { AwaitStops(w, deadline, h, tick + 1); }
  }

  /** What happened from span i on. */
  lemma {:induction false} GroupWaitMeans(w: World, deadline: nat, spans: seq<Span>, i: nat, tick: nat)
    requires Advancing(w.clock) && i <= |spans|
    ensures var g := AwaitSpans(w, deadline, spans, i, tick);
            i <= g.done <= |spans| && tick <= g.next && Awaited(w, deadline, spans[i..], g.done - i, tick, g.next)
    decreases |spans| - i
  {
    if i < |spans| {
      var r, g := Await(w, deadline, spans[i].Last(), tick), AwaitSpans(w, deadline, spans, i, tick);
      var rest := spans[i..];
      OneSpan(w, deadline, spans[i], tick);
      assert rest[0] == spans[i];
      if r.done {
        GroupWaitMeans(w, deadline, spans, i + 1, r.next);
        assert rest[1..] == spans[i + 1..];
      }
      assert AwaitedVia(w, deadline, rest, g.done - i, tick, g.next, r.next - 1);
    }
  }

  /** The whole wait, from its first probe to its last: it follows the tails of the spans, in
      order, and the one deadline. */
  lemma {:induction false} WholeWaitMeans(w: World, deadline: nat, groups: seq<Group>, tick: nat)
    requires Advancing(w.clock)
    ensures var r := AwaitGroups(w, deadline, groups, tick);
            |r.done| == |groups| && tick <= r.next && AllAwaited(w, deadline, groups, r.done, tick, r.next)
  {
    if groups != [] {
      var n := |groups| - 1;
      var before, r := AwaitGroups(w, deadline, groups[..n], tick), AwaitGroups(w, deadline, groups, tick);
      WholeWaitMeans(w, deadline, groups[..n], tick);
      GroupWaitMeans(w, deadline, groups[n].spans, 0, before.next);
      assert groups[n].spans[0..] == groups[n].spans && r.done[..n] == before.done;
      assert AllAwaitedVia(w, deadline, groups, r.done, tick, r.next, before.next);
    }
  }

  /** At a tick of the wait, the handle that completes the span is finished. */
  ghost predicate EndedWithin(w: World, span: Span, start: nat, next: nat) {
    exists t, h :: start <= t < next && Completes(span, h) && w.ended(h, t)
  }

  /** At a tick of the wait the deadline had passed and that handle was still running. */
  ghost predicate CutShort(w: World, deadline: nat, span: Span, start: nat, next: nat) {
    exists t, h :: start <= t < next && Completes(span, h) && w.clock(t) >= deadline && !w.ended(h, t)
  }

  lemma {:induction false} AwaitedSpan(w: World, deadline: nat, spans: seq<Span>, done: nat, start: nat, next: nat,
                                       k: nat)
    requires Awaited(w, deadline, spans, done, start, next) && k < |spans|
    ensures done <= |spans| && start <= next
    ensures k < done ==> EndedWithin(w, spans[k], start, next)
    ensures k == done ==> CutShort(w, deadline, spans[k], start, next)
    decreases |spans|
  {
    var last :| start <= last < next && AwaitedVia(w, deadline, spans, done, start, next, last);
    assert Completes(spans[0], spans[0].Last());
    if done > 0 && |spans| > 1 {
      AwaitedSpan(w, deadline, spans[1..], done - 1, last + 1, next, if k == 0 then 0 else k - 1);
    } else if done > 0 {
      assert Awaited(w, deadline, spans[1..], done - 1, last + 1, next);
    }
  }

  lemma {:induction false} AwaitedGroup(w: World, deadline: nat, groups: seq<Group>, done: seq<nat>,
                                        start: nat, next: nat, g: nat, k: nat)
    requires |done| == |groups| && AllAwaited(w, deadline, groups, done, start, next)
    requires g < |groups| && k < |groups[g].spans|
    ensures done[g] <= |groups[g].spans| && start <= next
    ensures k < done[g] ==> EndedWithin(w, groups[g].spans[k], start, next)
    ensures k == done[g] ==> CutShort(w, deadline, groups[g].spans[k], start, next)
  {
    var n := |groups| - 1;
    var mid :| start <= mid <= next && AllAwaitedVia(w, deadline, groups, done, start, next, mid);
    if g == n {
      AwaitedSpan(w, deadline, groups[n].spans, done[n], mid, next, k);
    } else {
      AwaitedGroup(w, deadline, groups[..n], done[..n], start, mid, g, k);
    }
  }

  /** When the wait is over, the last submit of every span counted as done has been seen
      finished; and the span a group was cut short at was still running when the deadline
      was seen. */
  lemma DoneMeansFinished(w: World, deadline: nat, groups: seq<Group>, tick: nat, g: nat, k: nat)
    requires Advancing(w.clock) && g < |groups| && k < |groups[g].spans|
    ensures var r := AwaitGroups(w, deadline, groups, tick);
            && |r.done| == |groups| && r.done[g] <= |groups[g].spans|
            && (k < r.done[g] ==> EndedWithin(w, groups[g].spans[k], tick, r.next))
            && (k == r.done[g] ==> CutShort(w, deadline, groups[g].spans[k], tick, r.next))
  {
    WholeWaitMeans(w, deadline, groups, tick);
    var r := AwaitGroups(w, deadline, groups, tick);
    AwaitedGroup(w, deadline, groups, r.done, tick, r.next, g, k);
  }

  /** After the wait, each span's work has been seen finished or the deadline has passed. */
  lemma FinishedOrTimeIsUp(w: World, deadline: nat, groups: seq<Group>, tick: nat, g: nat, k: nat)
    requires Advancing(w.clock) && g < |groups| && k < |groups[g].spans|
    ensures var r := AwaitGroups(w, deadline, groups, tick);
            tick <= r.next && (EndedWithin(w, groups[g].spans[k], tick, r.next) || w.clock(r.next) >= deadline)
  {
    var r := AwaitGroups(w, deadline, groups, tick);
    WholeWaitMeans(w, deadline, groups, tick);
    DoneMeansFinished(w, deadline, groups, tick, g, k);
    if k > r.done[g] { DoneMeansFinished(w, deadline, groups, tick, g, r.done[g]); }
    if k >= r.done[g] {
      var span := groups[g].spans[r.done[g]];
      var t, h :| tick <= t < r.next && Completes(span, h) && w.clock(t) >= deadline && !w.ended(h, t);
      Advances(w.clock, t, r.next);
    }
  }

  /** How many of the first n spans have known times. */
  ghost function KnownIn(w: World, spans: seq<Span>, n: nat): nat
    requires n <= |spans|
  {
    if n == 0 then 0 else KnownIn(w, spans, n - 1) + if w.times(spans[n - 1]).Some? then 1 else 0
  }

  /** How many completed spans of the first g groups have known times. */
  ghost function KnownBefore(w: World, groups: seq<Group>, done: seq<nat>, g: nat): nat
    requires g <= |groups| == |done| && forall h :: 0 <= h < |groups| ==> done[h] <= |groups[h].spans|
  {
    if g == 0 then 0
    else KnownBefore(w, groups, done, g - 1) + KnownIn(w, groups[g - 1].spans, done[g - 1])
  }

  lemma {:induction false} TimingsAt(w: World, id: PresentId, spans: seq<Span>, n: nat, k: nat)
    requires n <= |spans| && k <= |spans|
    ensures |Timings(w, id, spans[..n])| == KnownIn(w, spans, n)
    ensures k <= n ==> KnownIn(w, spans, k) <= KnownIn(w, spans, n)
    ensures k < n && w.times(spans[k]).Some? ==>
              KnownIn(w, spans, k) < KnownIn(w, spans, n) &&
              Timings(w, id, spans[..n])[KnownIn(w, spans, k)] == Recorded(id, w.times(spans[k]).value)
  {
    if n > 0 {
      assert spans[..n][..n - 1] == spans[..n - 1];
      TimingsAt(w, id, spans, n - 1, k);
    }
  }

  lemma {:induction false} KnownBeforePrefix(w: World, groups: seq<Group>, done: seq<nat>, n: nat, g: nat)
    requires g <= n <= |groups| == |done| && forall h :: 0 <= h < |groups| ==> done[h] <= |groups[h].spans|
    ensures KnownBefore(w, groups[..n], done[..n], g) == KnownBefore(w, groups, done, g)
  {
    if g > 0 { KnownBeforePrefix(w, groups, done, n, g - 1); }
  }

  lemma {:induction false} DoneFits(w: World, deadline: nat, groups: seq<Group>, tick: nat)
    requires Advancing(w.clock)
    ensures var r := AwaitGroups(w, deadline, groups, tick);
            |r.done| == |groups| && forall h :: 0 <= h < |groups| ==> r.done[h] <= |groups[h].spans|
  {
    WholeWaitIsBounded(w, deadline, groups, tick);
  }

  /** The last group's records come after those of the groups before it. */
  lemma LastGroupRecords(w: World, deadline: nat, groups: seq<Group>, tick: nat)
    requires Advancing(w.clock) && groups != []
    ensures var n := |groups| - 1;
            var before, r := AwaitGroups(w, deadline, groups[..n], tick), AwaitGroups(w, deadline, groups, tick);
            && |r.done| == n + 1 && r.done[..n] == before.done && r.done[n] <= |groups[n].spans|
            && r.records == before.records + Timings(w, groups[n].presentId, groups[n].spans[..r.done[n]])
  {
    var n := |groups| - 1;
    DoneFits(w, deadline, groups[..n], tick);
    AwaitSpansBound(w, deadline, groups[n].spans, 0, AwaitGroups(w, deadline, groups[..n], tick).next);
  }

  /** The number of records is the number of completed spans with known times. */
  lemma {:induction false} RecordCount(w: World, deadline: nat, groups: seq<Group>, tick: nat)
    requires Advancing(w.clock)
    ensures var r := AwaitGroups(w, deadline, groups, tick);
            && |r.done| == |groups| && (forall h :: 0 <= h < |groups| ==> r.done[h] <= |groups[h].spans|)
            && |r.records| == KnownBefore(w, groups, r.done, |groups|)
  {
    DoneFits(w, deadline, groups, tick);
    if groups != [] {
      var n := |groups| - 1;
      var r := AwaitGroups(w, deadline, groups, tick);
      RecordCount(w, deadline, groups[..n], tick);
      LastGroupRecords(w, deadline, groups, tick);
      KnownBeforePrefix(w, groups, r.done, n, n);
      TimingsAt(w, groups[n].presentId, groups[n].spans, r.done[n], 0);
    }
  }

  ghost predicate RecordAt(records: seq<Recorded>, i: nat, id: PresentId, times: Times) {
    i < |records| && records[i] == Recorded(id, times)
  }

  /** The last group's part. */
  lemma LastRecordAt(w: World, deadline: nat, groups: seq<Group>, tick: nat, k: nat)
    requires Advancing(w.clock) && groups != []
    requires k < |groups[|groups| - 1].spans| && w.times(groups[|groups| - 1].spans[k]).Some?
    ensures var r, g := AwaitGroups(w, deadline, groups, tick), groups[|groups| - 1];
            var before := |AwaitGroups(w, deadline, groups[..|groups| - 1], tick).records|;
            |r.done| == |groups| &&
            (k < r.done[|groups| - 1] ==>
               RecordAt(r.records, before + KnownIn(w, g.spans, k), g.presentId, w.times(g.spans[k]).value))
  {
    var n := |groups| - 1;
    LastGroupRecords(w, deadline, groups, tick);
    TimingsAt(w, groups[n].presentId, groups[n].spans, AwaitGroups(w, deadline, groups, tick).done[n], k);
  }

  /** The record of the k-th span of group g, if that was completed. */
  ghost predicate IsRecorded(w: World, groups: seq<Group>, r: AllWait, g: nat, k: nat)
    requires g < |groups| && k < |groups[g].spans| && w.times(groups[g].spans[k]).Some?
  {
    && |r.done| == |groups| && (forall h :: 0 <= h < |groups| ==> r.done[h] <= |groups[h].spans|)
    && (k < r.done[g] ==>
          RecordAt(r.records, KnownBefore(w, groups, r.done, g) + KnownIn(w, groups[g].spans, k),
                   groups[g].presentId, w.times(groups[g].spans[k]).value))
  }

  lemma RecordStays(w: World, deadline: nat, groups: seq<Group>, tick: nat, g: nat, k: nat)
    requires Advancing(w.clock) && groups != [] && g < |groups| - 1
    requires k < |groups[g].spans| && w.times(groups[g].spans[k]).Some?
    requires IsRecorded(w, groups[..|groups| - 1], AwaitGroups(w, deadline, groups[..|groups| - 1], tick), g, k)
    ensures IsRecorded(w, groups, AwaitGroups(w, deadline, groups, tick), g, k)
  {
    DoneFits(w, deadline, groups, tick);
    LastGroupRecords(w, deadline, groups, tick);
    KnownBeforePrefix(w, groups, AwaitGroups(w, deadline, groups, tick).done, |groups| - 1, g);
  }

  /** Each completed span with known times has its record under its own group's present id, after
      the records of those completed before it: with RecordCount, they are all there is. */
  lemma {:induction false} RecordsAreTheCompleted(w: World, deadline: nat, groups: seq<Group>, tick: nat, g: nat,
                                                  k: nat)
    requires Advancing(w.clock) && g < |groups| && k < |groups[g].spans| && w.times(groups[g].spans[k]).Some?
    ensures IsRecorded(w, groups, AwaitGroups(w, deadline, groups, tick), g, k)
  {
    var n := |groups| - 1;
    if g < n {
      RecordsAreTheCompleted(w, deadline, groups[..n], tick, g, k);
      RecordStays(w, deadline, groups, tick, g, k);
    } else {
      LastIsRecorded(w, deadline, groups, tick, k);
    }
  }

  lemma LastIsRecorded(w: World, deadline: nat, groups: seq<Group>, tick: nat, k: nat)
    requires Advancing(w.clock) && groups != []
    requires k < |groups[|groups| - 1].spans| && w.times(groups[|groups| - 1].spans[k]).Some?
    ensures IsRecorded(w, groups, AwaitGroups(w, deadline, groups, tick), |groups| - 1, k)
  {
    var n := |groups| - 1;
    DoneFits(w, deadline, groups, tick);
    RecordCount(w, deadline, groups[..n], tick);
    LastGroupRecords(w, deadline, groups, tick);
    KnownBeforePrefix(w, groups, AwaitGroups(w, deadline, groups, tick).done, n, n);
    LastRecordAt(w, deadline, groups, tick, k);
  }
}
