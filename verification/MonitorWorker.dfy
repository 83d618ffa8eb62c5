/** One turn of a swapchain monitor's worker, over the parts it drives: take the oldest signal,
    wait for its work, record the GPU times, delay the frame, and only then signal. */
module MonitorWorker {
  import opened HostClock
  import M = Markers
  import Mon = Monitor
  import P = Pacing
  import Q = QueueSpans
  import S = SpanWait
  import T = Timeline

  /** The marker history after recording GPU times, in order. */
  ghost function AfterRecords(frames: seq<M.Frame>, records: seq<S.Recorded>): seq<M.Frame> {
    if records == [] then frames
    else
      var last := records[|records| - 1];
      M.ListUpdate(AfterRecords(frames, records[..|records| - 1]), last.presentId,
                   M.GpuTimes(last.times.startNs, last.times.endNs))
  }

  method RecordAll(markers: M.MarkerHistory, records: seq<S.Recorded>)
    requires markers.Valid()
    modifies markers
    ensures markers.Valid() && markers.frames == AfterRecords(old(markers.frames), records)
  {
    for i := 0 to |records|
      invariant markers.Valid() && markers.frames == AfterRecords(old(markers.frames), records[..i])
    {
      assert records[..i + 1][..i] == records[..i];
      markers.RecordGpuTiming(records[i].presentId, records[i].times.startNs, records[i].times.endNs);
    }
    assert records[..|records|] == records;
  }

  /** What one turn waits for, and when it signals. */
  ghost predicate Turn(w: S.World, budgetNs: nat, delayNs: nat, groups: seq<S.Group>, tick: nat, next: nat,
                       before: P.Controller, after: P.Controller, r: S.AllWait)
    requires Advancing(w.clock)
  {
    && r == S.AwaitGroups(w, w.clock(tick) + budgetNs, groups, tick + 1)
    && next > 0 && next - 1 == P.ReleaseTick(before, delayNs, w.clock, r.next)
    && after == P.AfterDelay(before, w.clock(r.next), w.clock(next - 1))
  }

  method WaitAndRecord(markers: M.MarkerHistory, w: S.World, deadline: nat, groups: seq<S.Group>, tick: nat)
    returns (r: S.AllWait)
    requires Advancing(w.clock) && markers.Valid()
    modifies markers
    ensures markers.Valid() && r == S.AwaitGroups(w, deadline, groups, tick)
    ensures markers.frames == AfterRecords(old(markers.frames), r.records)
  {
    r := S.WaitForGroups(w, deadline, groups, tick);
    RecordAll(markers, r.records);
  }

  /** The waiting part of a turn. */
  method WaitAndDelay(controller: P.DelayController, markers: M.MarkerHistory, w: S.World, budgetNs: nat, delayNs: nat,
                      groups: seq<S.Group>, tick: nat) returns (next: nat, ghost r: S.AllWait)
    requires Advancing(w.clock) && markers.Valid()
    modifies controller, markers
    ensures markers.Valid()
    ensures r == S.AwaitGroups(w, w.clock(tick) + budgetNs, groups, tick + 1)
    ensures markers.frames == AfterRecords(old(markers.frames), r.records)
    ensures next - 1 == P.ReleaseTick(old(controller.Abstract()), delayNs, w.clock, r.next)
    ensures controller.Abstract() == P.AfterDelay(old(controller.Abstract()), w.clock(r.next), w.clock(next - 1))
  {
    ghost var before := controller.Abstract();
    var all := WaitAndRecord(markers, w, w.clock(tick) + budgetNs, groups, tick + 1);
    ghost var frames := markers.frames;
    assert controller.Abstract() == before;
    next := controller.Delay(delayNs, w.clock, all.next);
    assert markers.Valid() && markers.frames == frames;
    r := all;
  }

  /** One turn while not stopped: the wait, then the signal. */
  method WaitThenSignal(controller: P.DelayController, markers: M.MarkerHistory, device: T.Device, w: S.World,
                        budgetNs: nat, delayNs: nat, p: Mon.Pending, tick: nat) returns (next: nat, ghost r: S.AllWait)
    requires Advancing(w.clock) && markers.Valid()
    modifies controller, markers, device
    ensures markers.Valid() && markers.frames == AfterRecords(old(markers.frames), r.records)
    ensures Turn(w, budgetNs, delayNs, p.groups, tick, next, old(controller.Abstract()), controller.Abstract(), r)
    ensures T.Readable(device.entryPoints, device.counters) ==
              T.AfterSignal(T.Readable(device.entryPoints, old(device.counters)), p.signal)
  {
    next, r := WaitAndDelay(controller, markers, w, budgetNs, delayNs, p.groups, tick);
    ghost var frames, after := markers.frames, controller.Abstract();
    T.Send(p.signal, device);
    assert markers.Valid() && markers.frames == frames && controller.Abstract() == after;
  }

  /** One turn, when a signal is queued.  After stop nothing is waited for. */
  method Serve(monitor: Mon.SwapchainMonitor, controller: P.DelayController, markers: M.MarkerHistory, device: T.Device,
               w: S.World, budgetNs: nat, layerDelayNs: nat, tick: nat)
    returns (p: Mon.Pending, next: nat, ghost r: S.AllWait)
    requires monitor.pendingSignals != [] && Advancing(w.clock) && markers.Valid()
    modifies monitor`pendingSignals, controller, markers, device
    ensures p == old(monitor.pendingSignals)[0] && monitor.pendingSignals == old(monitor.pendingSignals)[1..]
    ensures markers.Valid()
    ensures T.Readable(device.entryPoints, device.counters) ==
              T.AfterSignal(T.Readable(device.entryPoints, old(device.counters)), p.signal)
    ensures monitor.stop ==>
              markers.frames == old(markers.frames) && controller.Abstract() == old(controller.Abstract())
    ensures !monitor.stop ==>
              && Turn(w, budgetNs, P.Max(monitor.presentDelayNs, layerDelayNs), p.groups, tick, next,
                      old(controller.Abstract()), controller.Abstract(), r)
              && markers.frames == AfterRecords(old(markers.frames), r.records)
  {
    p := monitor.TakeNext();
    assert markers.Valid() && markers.frames == old(markers.frames);
    assert controller.Abstract() == old(controller.Abstract());
    if monitor.stop {
      T.Send(p.signal, device);
      next := tick;
      r := S.AllWait([], [], tick);
      return;
    }
    next, r := WaitThenSignal(controller, markers, device, w, budgetNs,
                              P.Max(monitor.presentDelayNs, layerDelayNs), p, tick);
  }

  /** When the worker signals, the work attached to the signal has been seen finished, or the
      whole budget is spent; and the frame has had its delay. */
  lemma SignalComesLast(w: S.World, budgetNs: nat, delayNs: nat, groups: seq<S.Group>, tick: nat, next: nat,
                        before: P.Controller, after: P.Controller, r: S.AllWait)
    requires Advancing(w.clock) && Turn(w, budgetNs, delayNs, groups, tick, next, before, after, r)
    ensures tick < next && w.clock(next - 1) >= w.clock(tick)
    ensures forall g, k :: 0 <= g < |groups| && 0 <= k < |groups[g].spans| ==>
              || S.EndedWithin(w, groups[g].spans[k], tick, next)
              || w.clock(next - 1) >= w.clock(tick) + budgetNs
    ensures before.previous.Some? && before.previous.value.releaseNs <= w.clock(tick) ==>
              w.clock(next - 1) >= before.previous.value.releaseNs + delayNs
  {
    var deadline := w.clock(tick) + budgetNs;
    S.WholeWaitMeans(w, deadline, groups, tick + 1);
    Advances(w.clock, tick, r.next);
    Advances(w.clock, r.next, next - 1);
    P.ReleaseIsLate(before, delayNs, w.clock, r.next);
    forall g, k | 0 <= g < |groups| && 0 <= k < |groups[g].spans|
      ensures S.EndedWithin(w, groups[g].spans[k], tick, next) || w.clock(next - 1) >= deadline
    {
      S.FinishedOrTimeIsUp(w, deadline, groups, tick + 1, g, k);
      if S.EndedWithin(w, groups[g].spans[k], tick + 1, r.next) {
        EndedInWiderTime(w, groups[g].spans[k], tick + 1, r.next, tick, next);
      }
    }
  }

  lemma EndedInWiderTime(w: S.World, span: Q.Span, start: nat, end: nat, from: nat, until: nat)
    requires S.EndedWithin(w, span, start, end) && from <= start && end <= until
    ensures S.EndedWithin(w, span, from, until)
  {}

  /** The GPU times last recorded for a present, or the ones it had. */
  ghost function LastTimes(records: seq<S.Recorded>, id: nat, startUs: nat, endUs: nat): (nat, nat) {
    if records == [] then (startUs, endUs)
    else
      var last := records[|records| - 1];
      if last.presentId == id then (last.times.startNs / 1000, last.times.endNs / 1000)
      else LastTimes(records[..|records| - 1], id, startUs, endUs)
  }

  /** After the turn, every listed frame reports the last start and end recorded for it; no frame
      comes or goes. */
  lemma {:induction false} RecordsAreReported(frames: seq<M.Frame>, records: seq<S.Recorded>, id: nat)
    requires M.Find(frames, id) < |frames|
    ensures var after, i := AfterRecords(frames, records), M.Find(frames, id);
            && |after| == |frames| && M.Find(after, id) == i
            && (after[i].gpuRenderStartUs, after[i].gpuRenderEndUs)
               == LastTimes(records, id, frames[i].gpuRenderStartUs, frames[i].gpuRenderEndUs)
  {
    if records != [] {
      var n := |records| - 1;
      RecordsAreReported(frames, records[..n], id);
      OneRecord(AfterRecords(frames, records[..n]), records[n], id);
    }
  }

  lemma OneRecord(frames: seq<M.Frame>, r: S.Recorded, id: nat)
    requires M.Find(frames, id) < |frames|
    ensures var after := M.ListUpdate(frames, r.presentId, M.GpuTimes(r.times.startNs, r.times.endNs));
            var i := M.Find(frames, id);
            && |after| == |frames| && M.Find(after, id) == i
            && (if r.presentId == id
                then (after[i].gpuRenderStartUs, after[i].gpuRenderEndUs)
                     == (r.times.startNs / 1000, r.times.endNs / 1000)
                else after[i] == frames[i])
  {
    var i, u := M.Find(frames, id), M.GpuTimes(r.times.startNs, r.times.endNs);
    var after := M.ListUpdate(frames, r.presentId, u);
    if r.presentId == id { M.FindKept(frames, id, u); }
    assert after[i].presentId == id;
    assert forall j :: 0 <= j < i ==> after[j].presentId == frames[j].presentId;
  }
}
