/** Reflex marker history: the last 128 frames in a deque, with a hash index from present id
    to absolute frame number.  It behaves as a plain list searched linearly. */
module Markers {
  import opened Wrappers

  const HISTORY_CAP: nat := 128

  datatype Marker =
    | InputSample | SimulationStart | SimulationEnd | RenderSubmitStart | RenderSubmitEnd
    | PresentStart | PresentEnd | Other

  datatype Frame = Frame(
    presentId: nat,
    inputSampleUs: nat, simStartUs: nat, simEndUs: nat,
    renderSubmitStartUs: nat, renderSubmitEndUs: nat,
    presentStartUs: nat, presentEndUs: nat,
    displayActualUs: nat,
    gpuRenderStartUs: nat, gpuRenderEndUs: nat)

  function NewFrame(id: nat): Frame { Frame(id, 0, 0, 0, 0, 0, 0, 0, 0, 0, 0) }

  /** The update of one frame: a marker, GPU times or the display time. */
  datatype Update = Marked(m: Marker, us: nat) | GpuTimes(startNs: nat, endNs: nat) | Displayed(ns: nat)

  function Updated(f: Frame, u: Update): (r: Frame)
    ensures r.presentId == f.presentId
  {
    match u
    case Marked(InputSample, us) => f.(inputSampleUs := us)
    case Marked(SimulationStart, us) => f.(simStartUs := us)
    case Marked(SimulationEnd, us) => f.(simEndUs := us)
    case Marked(RenderSubmitStart, us) => f.(renderSubmitStartUs := us)
    case Marked(RenderSubmitEnd, us) => f.(renderSubmitEndUs := us)
    case Marked(PresentStart, us) => f.(presentStartUs := us)
    case Marked(PresentEnd, us) => f.(presentEndUs := us)
    case Marked(Other, _) => f
    case GpuTimes(s, e) => f.(gpuRenderStartUs := s / 1000, gpuRenderEndUs := e / 1000)
    case Displayed(ns) => f.(displayActualUs := ns / 1000)
  }

  // ----- The plain list

  ghost function Find(frames: seq<Frame>, id: nat): (i: nat)
    ensures i <= |frames|
    ensures i < |frames| ==> frames[i].presentId == id
    ensures forall j :: 0 <= j < i ==> frames[j].presentId != id
  {
    if frames == [] || frames[0].presentId == id then 0 else 1 + Find(frames[1..], id)
  }

  /** Make room and append a frame for an id not listed. */
  ghost function Listed(frames: seq<Frame>, id: nat): seq<Frame> {
    if Find(frames, id) < |frames| then frames
    else (if |frames| == HISTORY_CAP then frames[1..] else frames) + [NewFrame(id)]
  }

  ghost function ListUpdate(frames: seq<Frame>, id: nat, u: Update): seq<Frame> {
    var fs := if u.Marked? then Listed(frames, id) else frames;
    var i := Find(fs, id);
    if i < |fs| then fs[i := Updated(fs[i], u)] else fs
  }

  lemma FoundLast(frames: seq<Frame>, id: nat)
    requires Find(frames, id) == |frames|
    ensures Listed(frames, id) != [] && Find(Listed(frames, id), id) == |Listed(frames, id)| - 1
  {
    var fs := Listed(frames, id);
    assert fs[|fs| - 1].presentId == id;
    assert forall j :: 0 <= j < |fs| - 1 ==> fs[j] in frames;
  }

  // ----- The index

  ghost function Ids(frames: seq<Frame>): (ids: seq<nat>)
    ensures |ids| == |frames| && forall i :: 0 <= i < |ids| ==> ids[i] == frames[i].presentId
  {
    if frames == [] then [] else [frames[0].presentId] + Ids(frames[1..])
  }

  lemma IdsOfAppended(frames: seq<Frame>, f: Frame)
    ensures Ids(frames + [f]) == Ids(frames) + [f.presentId]
  {}

  lemma IdsOfRest(frames: seq<Frame>)
    requires frames != []
    ensures Ids(frames[1..]) == Ids(frames)[1..]
  {}

  lemma IdsOfUpdated(frames: seq<Frame>, i: nat, u: Update)
    requires i < |frames|
    ensures Ids(frames[i := Updated(frames[i], u)]) == Ids(frames)
  {}

  lemma IdsOfListed(frames: seq<Frame>, id: nat)
    requires Find(frames, id) == |frames|
    ensures Ids(Listed(frames, id)) == (if |frames| == HISTORY_CAP then Ids(frames)[1..] else Ids(frames)) + [id]
  {
    if |frames| == HISTORY_CAP {
      IdsOfRest(frames);
      IdsOfAppended(frames[1..], NewFrame(id));
    } else {
      IdsOfAppended(frames, NewFrame(id));
    }
  }

  /** byId maps exactly the listed ids to their positions, counted from head. */
  ghost predicate Indexed(ids: seq<nat>, byId: map<nat, nat>, head: nat) {
    && (forall i :: 0 <= i < |ids| ==> ids[i] in byId && byId[ids[i]] == head + i)
    && (forall id :: id in byId ==> id in ids)
  }

  lemma IndexFinds(frames: seq<Frame>, byId: map<nat, nat>, head: nat, id: nat)
    requires Indexed(Ids(frames), byId, head)
    ensures id in byId <==> Find(frames, id) < |frames|
    ensures id in byId ==> byId[id] == head + Find(frames, id)
  {
    var i, ids := Find(frames, id), Ids(frames);
    if i < |frames| { assert ids[i] == id; }
    if id in byId { var k :| 0 <= k < |ids| && ids[k] == id; assert frames[k].presentId == id; }
  }

  lemma IndexEvicts(ids: seq<nat>, byId: map<nat, nat>, head: nat)
    requires Indexed(ids, byId, head) && ids != []
    ensures Indexed(ids[1..], byId - {ids[0]}, head + 1)
  {
    var byId' := byId - {ids[0]};
    assert byId[ids[0]] == head + 0;
    forall i | 0 <= i < |ids[1..]| ensures ids[1..][i] in byId' && byId'[ids[1..][i]] == head + 1 + i {
      assert byId[ids[i + 1]] == head + (i + 1);
    }
  }

  lemma IndexAppends(ids: seq<nat>, byId: map<nat, nat>, head: nat, id: nat)
    requires Indexed(ids, byId, head) && id !in byId
    ensures Indexed(ids + [id], byId[id := head + |ids|], head)
  {}

  // ----- Latency samples

  /** Click-to-photon of one frame, if it has both ends. */
  function Latency(f: Frame): Option<nat> {
    var end := if f.displayActualUs != 0 then f.displayActualUs else f.presentEndUs;
    if f.inputSampleUs != 0 && end > f.inputSampleUs then Some(end - f.inputSampleUs) else None
  }

  /** What latencies_us appends, oldest frame first. */
  ghost function Samples(frames: seq<Frame>): seq<nat> {
    if frames == [] then []
    else Samples(frames[..|frames| - 1]) +
         match Latency(frames[|frames| - 1]) case Some(us) => [us] case None => []
  }

  /** A frame as reported to the application. */
  datatype Report = Report(
    presentId: nat,
    inputSampleTimeUs: nat, simStartTimeUs: nat, simEndTimeUs: nat,
    renderSubmitStartTimeUs: nat, renderSubmitEndTimeUs: nat,
    presentStartTimeUs: nat, presentEndTimeUs: nat,
    gpuRenderStartTimeUs: nat, gpuRenderEndTimeUs: nat)

  function ReportOf(f: Frame): Report {
    Report(f.presentId, f.inputSampleUs, f.simStartUs, f.simEndUs, f.renderSubmitStartUs, f.renderSubmitEndUs,
           f.presentStartUs, if f.presentEndUs != 0 then f.presentEndUs else f.displayActualUs,
           f.gpuRenderStartUs, f.gpuRenderEndUs)
  }

  class MarkerHistory {
    var frames: seq<Frame>
    var byPresentId: map<nat, nat>   // present id to absolute frame number
    var headIndex: nat               // absolute number of the oldest frame kept

    ghost predicate Valid()
      reads this
    {
      |frames| <= HISTORY_CAP && Indexed(Ids(frames), byPresentId, headIndex)
    }

    constructor ()
      ensures Valid() && frames == []
    {
      frames, byPresentId, headIndex := [], map[], 0;
    }

    /** The slot of an id: a hash lookup and a subtraction that cannot underflow. */
    method Slot(id: nat) returns (slot: Option<nat>)
      requires Valid()
      ensures slot == if Find(frames, id) < |frames| then Some(Find(frames, id)) else None
    {
      IndexFinds(frames, byPresentId, headIndex, id);
      if id in byPresentId { return Some(byPresentId[id] - headIndex); }
      return None;
    }

    /** The None branch of record: evict the oldest frame if full, then append. */
    method Append(id: nat)
      requires Valid() && Find(frames, id) == |frames|
      modifies this
      ensures Valid() && frames == Listed(old(frames), id)
    {
      IndexFinds(frames, byPresentId, headIndex, id);
      if |frames| == HISTORY_CAP { Evict(); }
      Push(id);
    }

    method Push(id: nat)
      requires Valid() && |frames| < HISTORY_CAP && id !in byPresentId
      modifies this
      ensures Valid() && frames == old(frames) + [NewFrame(id)]
    {
      IndexAppends(Ids(frames), byPresentId, headIndex, id);
      IdsOfAppended(frames, NewFrame(id));
      byPresentId := byPresentId[id := headIndex + |frames|];
      frames := frames + [NewFrame(id)];
    }

    method Evict()
      requires Valid() && |frames| > 0
      modifies this
      ensures Valid() && frames == old(frames)[1..] && byPresentId == old(byPresentId) - {old(frames)[0].presentId}
    {
      ghost var ids := Ids(frames);
      IndexEvicts(ids, byPresentId, headIndex);
      byPresentId := byPresentId - {frames[0].presentId};
      frames := frames[1..];
      headIndex := headIndex + 1;
      IdsOfRest(old(frames));
    }

    method UpdateAt(slot: nat, u: Update)
      requires Valid() && slot < |frames|
      modifies this`frames
      ensures Valid() && frames == old(frames)[slot := Updated(old(frames)[slot], u)]
    {
      IdsOfUpdated(frames, slot, u);
      frames := frames[slot := Updated(frames[slot], u)];
    }

    /** record */
    method Record(id: nat, m: Marker, nowUs: nat)
      requires Valid()
      modifies this
      ensures Valid() && frames == ListUpdate(old(frames), id, Marked(m, nowUs))
    {
      var slot := Slot(id);
      if slot.None? {
        Append(id);
        FoundLast(old(frames), id);
        UpdateAt(|frames| - 1, Marked(m, nowUs));
      } else {
        UpdateAt(slot.value, Marked(m, nowUs));
      }
    }

    /** record_gpu_timing */
    method RecordGpuTiming(id: nat, startNs: nat, endNs: nat)
      requires Valid()
      modifies this
      ensures Valid() && frames == ListUpdate(old(frames), id, GpuTimes(startNs, endNs))
    {
      var slot := Slot(id);
      if slot.Some? { UpdateAt(slot.value, GpuTimes(startNs, endNs)); }
    }

    /** record_present_actual */
    method RecordPresentActual(id: nat, actualNs: nat)
      requires Valid()
      modifies this
      ensures Valid() && frames == ListUpdate(old(frames), id, Displayed(actualNs))
    {
      var slot := Slot(id);
      if slot.Some? { UpdateAt(slot.value, Displayed(actualNs)); }
    }

    /** latest_latency_us: the last sample latencies_us would append, or 0. */
    method LatestLatencyUs() returns (us: nat)
      ensures var all := Samples(frames); us == if all == [] then 0 else all[|all| - 1]
    {
      var i := |frames|;
      assert frames[..i] == frames;
      while i > 0
        invariant i <= |frames|
        invariant Samples(frames[..i]) == Samples(frames)
      {
        i := i - 1;
        assert frames[..i + 1][..i] == frames[..i];
        var latency := Latency(frames[i]);
        if latency.Some? { return latency.value; }
      }
      return 0;
    }

    /** latencies_us */
    method LatenciesUs(out: seq<nat>) returns (r: seq<nat>)
      ensures r == out + Samples(frames)
    {
      r := out;
      var i := 0;
      while i < |frames|
        invariant 0 <= i <= |frames|
        invariant r == out + Samples(frames[..i])
      {
        assert frames[..i + 1][..i] == frames[..i];
        var latency := Latency(frames[i]);
        if latency.Some? { r := r + [latency.value]; }
        i := i + 1;
      }
      assert frames[..i] == frames;
    }

    /** fill: without a buffer the number of frames; with one, the newest frames, newest first. */
    method Fill(buffer: Option<nat>) returns (count: nat, written: seq<Report>)
      ensures buffer.None? ==> count == |frames| && written == []
      ensures buffer.Some? ==> count == |written| && count == if buffer.value < |frames| then buffer.value else |frames|
      ensures forall i :: 0 <= i < |written| ==> written[i] == ReportOf(frames[|frames| - 1 - i])
    {
      written := [];
      if buffer.None? { return |frames|, []; }
      var toWrite := if buffer.value < |frames| then buffer.value else |frames|;
      while |written| < toWrite
        invariant |written| <= toWrite
        invariant forall i :: 0 <= i < |written| ==> written[i] == ReportOf(frames[|frames| - 1 - i])
      {
        written := written + [ReportOf(frames[|frames| - 1 - |written|])];
      }
      return toWrite, written;
    }
  }

  // ----- Runs

  datatype Call = Call(id: nat, u: Update)

  ghost function After(calls: seq<Call>): seq<Frame> {
    if calls == [] then []
    else ListUpdate(After(calls[..|calls| - 1]), calls[|calls| - 1].id, calls[|calls| - 1].u)
  }

  /** The ids for which a new frame was begun, in order: one entry per (re)appearance. */
  ghost function Begun(calls: seq<Call>): seq<nat> {
    if calls == [] then []
    else
      var last := calls[|calls| - 1];
      Begun(calls[..|calls| - 1]) +
      if Begins(After(calls[..|calls| - 1]), last.id, last.u) then [last.id] else []
  }

  ghost function Newest(ids: seq<nat>): seq<nat> {
    if |ids| <= HISTORY_CAP then ids else ids[|ids| - HISTORY_CAP..]
  }

  ghost predicate Begins(frames: seq<Frame>, id: nat, u: Update) {
    u.Marked? && Find(frames, id) == |frames|
  }

  lemma UpdateKeepsIds(frames: seq<Frame>, id: nat, u: Update)
    requires !Begins(frames, id, u)
    ensures Ids(ListUpdate(frames, id, u)) == Ids(frames)
  {
    if Find(frames, id) < |frames| { IdsOfUpdated(frames, Find(frames, id), u); }
  }

  lemma BeginAddsId(frames: seq<Frame>, id: nat, u: Update)
    requires Begins(frames, id, u)
    ensures Ids(ListUpdate(frames, id, u)) == (if |frames| == HISTORY_CAP then Ids(frames)[1..] else Ids(frames)) + [id]
    ensures id !in Ids(frames)
  {
    FoundLast(frames, id);
    IdsOfListed(frames, id);
    var fs := Listed(frames, id);
    IdsOfUpdated(fs, |fs| - 1, u);
  }

  lemma NewestAppended(ids: seq<nat>, id: nat)
    ensures var n := Newest(ids);
            Newest(ids + [id]) == (if |n| == HISTORY_CAP then n[1..] else n) + [id]
  {}

  ghost predicate NoRepeats(ids: seq<nat>) { forall i, j :: 0 <= i < j < |ids| ==> ids[i] != ids[j] }

  lemma NewestBegun(frames: seq<Frame>, begun: seq<nat>, id: nat, u: Update)
    requires Ids(frames) == Newest(begun) && NoRepeats(Ids(frames)) && Begins(frames, id, u)
    ensures var ids := Ids(ListUpdate(frames, id, u));
            ids == Newest(begun + [id]) && NoRepeats(ids)
  {
    BeginAddsId(frames, id, u);
    NewestAppended(begun, id);
  }

  lemma NewestStep(frames: seq<Frame>, begun: seq<nat>, id: nat, u: Update)
    requires Ids(frames) == Newest(begun) && NoRepeats(Ids(frames))
    ensures var begun' := begun + if Begins(frames, id, u) then [id] else [];
            var ids := Ids(ListUpdate(frames, id, u));
            ids == Newest(begun') && NoRepeats(ids)
  {
    if Begins(frames, id, u) {
      NewestBegun(frames, begun, id, u);
    } else {
      UpdateKeepsIds(frames, id, u);
      assert begun + [] == begun;
    }
  }

  /** The history is exactly the last 128 frames begun, in order, each id at most once. */
  lemma {:induction false} HistoryIsTheNewestFrames(calls: seq<Call>)
    ensures Ids(After(calls)) == Newest(Begun(calls)) && NoRepeats(Ids(After(calls)))
  {
    if calls != [] {
      var n := |calls| - 1;
      HistoryIsTheNewestFrames(calls[..n]);
      NewestStep(After(calls[..n]), Begun(calls[..n]), calls[n].id, calls[n].u);
    }
  }

  // ----- What every field of a listed frame holds

  /** The updates of an id's frame since it was begun, oldest first. */
  ghost function Since(calls: seq<Call>, id: nat): seq<Update> {
    if calls == [] then []
    else
      var before, last := calls[..|calls| - 1], calls[|calls| - 1];
      if last.id != id then Since(before, id)
      else if Begins(After(before), id, last.u) then [last.u]
      else Since(before, id) + [last.u]
  }

  /** The time of the last call of one marker, 0 without one. */
  ghost function LastMarked(us: seq<Update>, m: Marker): nat {
    if us == [] then 0
    else
      var last := us[|us| - 1];
      if last.Marked? && last.m == m then last.us else LastMarked(us[..|us| - 1], m)
  }

  ghost function LastDisplayed(us: seq<Update>): nat {
    if us == [] then 0
    else
      var last := us[|us| - 1];
      if last.Displayed? then last.ns else LastDisplayed(us[..|us| - 1])
  }

  ghost function LastGpuTimes(us: seq<Update>): (nat, nat) {
    if us == [] then (0, 0)
    else
      var last := us[|us| - 1];
      if last.GpuTimes? then (last.startNs, last.endNs) else LastGpuTimes(us[..|us| - 1])
  }

  /** Each marker field has the time of the last call of that very marker, the display and GPU
      fields the last recorded times in whole microseconds; 0 where there was none. */
  ghost predicate HasLastTimes(f: Frame, id: nat, us: seq<Update>) {
    && f.presentId == id
    && f.inputSampleUs == LastMarked(us, InputSample)
    && f.simStartUs == LastMarked(us, SimulationStart)
    && f.simEndUs == LastMarked(us, SimulationEnd)
    && f.renderSubmitStartUs == LastMarked(us, RenderSubmitStart)
    && f.renderSubmitEndUs == LastMarked(us, RenderSubmitEnd)
    && f.presentStartUs == LastMarked(us, PresentStart)
    && f.presentEndUs == LastMarked(us, PresentEnd)
    && f.displayActualUs == LastDisplayed(us) / 1000
    && f.gpuRenderStartUs == LastGpuTimes(us).0 / 1000
    && f.gpuRenderEndUs == LastGpuTimes(us).1 / 1000
  }

  lemma NewFrameHasNoTimes(id: nat)
    ensures HasLastTimes(NewFrame(id), id, [])
  {}

  lemma UpdateIsLast(f: Frame, id: nat, us: seq<Update>, u: Update)
    requires HasLastTimes(f, id, us)
    ensures HasLastTimes(Updated(f, u), id, us + [u])
  {
    assert (us + [u])[..|us|] == us;
  }

  /** Where a frame that is listed after a call was before it, if the call did not begin it. */
  lemma ListedBefore(frames: seq<Frame>, id: nat, u: Update, i: nat)
    requires i < |ListUpdate(frames, id, u)|
    ensures var f := ListUpdate(frames, id, u)[i];
            if f.presentId != id then f in frames
            else if Begins(frames, id, u) then NoRepeats(Ids(frames)) ==> f == Updated(NewFrame(id), u)
            else NoRepeats(Ids(frames)) ==> exists g :: g in frames && g.presentId == id && f == Updated(g, u)
  {
    var after := ListUpdate(frames, id, u);
    if Begins(frames, id, u) {
      FoundLast(frames, id);
      var n := |Listed(frames, id)| - 1;
      if i < n {
        assert after[i] in frames;
      }
    } else {
      var k := Find(frames, id);
      if after[i].presentId == id && NoRepeats(Ids(frames)) {
        FoundOnly(frames, id, i);
        assert frames[k] in frames;
      }
    }
  }

  lemma FoundOnly(frames: seq<Frame>, id: nat, i: nat)
    requires NoRepeats(Ids(frames)) && i < |frames| && frames[i].presentId == id
    ensures Find(frames, id) == i
  {
    var ids := Ids(frames);
    assert ids[i] == id && ids[Find(frames, id)] == id;
  }

  /** Over every run, every field of every listed frame holds what was last recorded for it since
      the frame was begun: no call touches another frame or another field. */
  lemma {:induction false} FieldsAreLastTimes(calls: seq<Call>, i: nat)
    requires i < |After(calls)|
    ensures var f := After(calls)[i]; HasLastTimes(f, f.presentId, Since(calls, f.presentId))
  {
    var n := |calls| - 1;
    var before, last := After(calls[..n]), calls[n];
    var f := After(calls)[i];
    HistoryIsTheNewestFrames(calls[..n]);
    ListedBefore(before, last.id, last.u, i);
    if f.presentId != last.id {
      var k :| 0 <= k < |before| && before[k] == f;
      FieldsAreLastTimes(calls[..n], k);
    } else if Begins(before, last.id, last.u) {
      NewFrameHasNoTimes(last.id);
      UpdateIsLast(NewFrame(last.id), last.id, [], last.u);
      assert [] + [last.u] == [last.u];
    } else {
      var g :| g in before && g.presentId == last.id && f == Updated(g, last.u);
      var k :| 0 <= k < |before| && before[k] == g;
      FieldsAreLastTimes(calls[..n], k);
      UpdateIsLast(g, last.id, Since(calls[..n], last.id), last.u);
    }
  }

  /** So what is reported for a frame are those times; for its end the application's own, and the
      display's only without one. */
  lemma ReportsAreLastTimes(calls: seq<Call>, i: nat)
    requires i < |After(calls)|
    ensures var f := After(calls)[i];
            var r, us := ReportOf(f), Since(calls, f.presentId);
            && r.presentId == f.presentId
            && r.inputSampleTimeUs == LastMarked(us, InputSample)
            && r.simStartTimeUs == LastMarked(us, SimulationStart)
            && r.simEndTimeUs == LastMarked(us, SimulationEnd)
            && r.renderSubmitStartTimeUs == LastMarked(us, RenderSubmitStart)
            && r.renderSubmitEndTimeUs == LastMarked(us, RenderSubmitEnd)
            && r.presentStartTimeUs == LastMarked(us, PresentStart)
            && r.presentEndTimeUs == (if LastMarked(us, PresentEnd) != 0 then LastMarked(us, PresentEnd)
                                      else LastDisplayed(us) / 1000)
            && r.gpuRenderStartTimeUs == LastGpuTimes(us).0 / 1000
            && r.gpuRenderEndTimeUs == LastGpuTimes(us).1 / 1000
  {
    FieldsAreLastTimes(calls, i);
  }

  /** And a latency sample is the time from the last input sample to the display, or to the
      application's own end where no display time is known; there is none unless that is later. */
  lemma SamplesAreLastTimes(calls: seq<Call>, i: nat)
    requires i < |After(calls)|
    ensures var us := Since(calls, After(calls)[i].presentId);
            var input, shown := LastMarked(us, InputSample), LastDisplayed(us) / 1000;
            var end := if shown != 0 then shown else LastMarked(us, PresentEnd);
            && (Latency(After(calls)[i]).Some? <==> 0 < input < end)
            && (0 < input < end ==> Latency(After(calls)[i]).value + input == end)
  {
    FieldsAreLastTimes(calls, i);
  }

  ghost function Measurable(frames: seq<Frame>): nat {
    if frames == [] then 0
    else Measurable(frames[..|frames| - 1]) + if Latency(frames[|frames| - 1]).Some? then 1 else 0
  }

  /** One sample for each measurable frame, oldest first. */
  lemma {:induction false} SamplesInOrder(frames: seq<Frame>, i: nat)
    ensures |Samples(frames)| == Measurable(frames)
    ensures i < |frames| && Latency(frames[i]).Some? ==>
              Measurable(frames[..i]) < |Samples(frames)| &&
              Samples(frames)[Measurable(frames[..i])] == Latency(frames[i]).value
  {
    if frames != [] {
      var n := |frames| - 1;
      SamplesInOrder(frames[..n], i);
      if i < n { assert frames[..n][..i] == frames[..i]; }
    }
  }

  /** GPU times of spans of one present, recorded one after the other. */
  ghost function AllTimes(frames: seq<Frame>, id: nat, times: seq<(nat, nat)>): seq<Frame> {
    if times == [] then frames
    else
      var last := times[|times| - 1];
      ListUpdate(AllTimes(frames, id, times[..|times| - 1]), id, GpuTimes(last.0, last.1))
  }

  /** The report keeps the last recorded pair of times.  The monitor's helper is documented to
      keep the earliest start and the latest end; it does exactly when the last pair has both. */
  lemma {:induction false} LastTimesWin(frames: seq<Frame>, id: nat, times: seq<(nat, nat)>)
    requires times != [] && Find(frames, id) < |frames|
    ensures var f, i := AllTimes(frames, id, times), Find(frames, id);
            && |f| == |frames| && Find(f, id) == i
            && f[i].gpuRenderStartUs == times[|times| - 1].0 / 1000
            && f[i].gpuRenderEndUs == times[|times| - 1].1 / 1000
  {
    var n := |times| - 1;
    var i := Find(frames, id);
    var before := AllTimes(frames, id, times[..n]);
    if n != 0 { LastTimesWin(frames, id, times[..n]); }
    assert |before| == |frames| && Find(before, id) == i;
    FindKept(before, id, GpuTimes(times[n].0, times[n].1));
  }

  lemma FindKept(frames: seq<Frame>, id: nat, u: Update)
    requires Find(frames, id) < |frames|
    ensures |ListUpdate(frames, id, u)| == |frames|
    ensures Find(ListUpdate(frames, id, u), id) == Find(frames, id)
  {
    var i := Find(frames, id);
    var after := ListUpdate(frames, id, u);
    assert after == frames[i := Updated(frames[i], u)];
    assert after[i].presentId == id;
    assert forall j :: 0 <= j < i ==> after[j].presentId != id;
  }

  /** No span of the present started before s or ended after e, in the report's microseconds. */
  ghost predicate Widest(times: seq<(nat, nat)>, startUs: nat, endUs: nat) {
    && (forall t :: t in times ==> startUs <= t.0 / 1000 && t.1 / 1000 <= endUs)
    && (exists t :: t in times && t.0 / 1000 == startUs)
    && (exists t :: t in times && t.1 / 1000 == endUs)
  }

  lemma WidestOnlyIfLast(frames: seq<Frame>, id: nat, times: seq<(nat, nat)>)
    requires times != [] && Find(frames, id) < |frames|
    ensures |AllTimes(frames, id, times)| == |frames|
    ensures var f, last := AllTimes(frames, id, times)[Find(frames, id)], times[|times| - 1];
            Widest(times, f.gpuRenderStartUs, f.gpuRenderEndUs) <==>
              forall t :: t in times ==> last.0 / 1000 <= t.0 / 1000 && t.1 / 1000 <= last.1 / 1000
  {
    LastTimesWin(frames, id, times);
    assert times[|times| - 1] in times;
  }

  /** The failing case: the second span lies inside the first, and only its times are reported. */
  lemma EnvelopeIsLost(frames: seq<Frame>, id: nat)
    requires Find(frames, id) < |frames|
    ensures var times := [(1000, 9000), (2000, 3000)];
            && |AllTimes(frames, id, times)| == |frames|
            && var f := AllTimes(frames, id, times)[Find(frames, id)];
               && f.gpuRenderStartUs == 2 && f.gpuRenderEndUs == 3
               && !Widest(times, f.gpuRenderStartUs, f.gpuRenderEndUs)
  {
    var times := [(1000, 9000), (2000, 3000)];
    LastTimesWin(frames, id, times);
    WidestOnlyIfLast(frames, id, times);
    assert times[0] in times;
  }
}
