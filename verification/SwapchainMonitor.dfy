/** The Reflex monitor of one swapchain: sleep signals and the GPU work attached to them,
    and the worker that signals each semaphore once that work is done or has timed out.
    First the state under the monitor's lock, as a class; then all interleavings of the
    application, the worker and the shutdown, as a transition system. */
module Monitor {
  import opened Wrappers
  import opened Timeline
  import Q = QueueSpans
  import opened SpanWait

  const U64_MAX: nat := 0xFFFF_FFFF_FFFF_FFFF

  datatype Pending = Pending(signal: Signal, groups: seq<Group>)

  /** What the monitor's mutex guards. */
  datatype Guarded = Guarded(
    signals: seq<Pending>,
    groups: seq<Group>,
    presentDelayNs: nat,
    requested: bool)

  /** minimum_interval_us.saturating_mul(1_000) */
  function IntervalNs(us: nat): nat {
    if 1000 * us > U64_MAX then U64_MAX else 1000 * us
  }

  function WithParams(g: Guarded, requested: bool, delayNs: nat): Guarded {
    g.(requested := requested, presentDelayNs := delayNs)
  }

  /** notify_semaphore while pacing is on: the accumulated groups go with the signal. */
  function WithSignal(g: Guarded, s: Signal): Guarded {
    g.(signals := g.signals + [Pending(s, g.groups)], groups := [])
  }

  function WithWork(g: Guarded, work: Group): Guarded {
    if g.requested then g.(groups := g.groups + [work]) else g
  }

  class SwapchainMonitor {
    var pendingSignals: seq<Pending>
    var pendingGroups: seq<Group>
    var presentDelayNs: nat
    var requested: bool
    var stop: bool

    ghost function State(): Guarded
      reads this
    {
      Guarded(pendingSignals, pendingGroups, presentDelayNs, requested)
    }

    constructor ()
      ensures State() == Guarded([], [], 0, false) && !stop
    {
      pendingSignals, pendingGroups, presentDelayNs, requested, stop := [], [], 0, false, false;
    }

    method UpdateParams(requested: bool, minimumIntervalUs: nat)
      modifies this
      ensures State() == WithParams(old(State()), requested, IntervalNs(minimumIntervalUs)) && stop == old(stop)
      ensures || presentDelayNs == 1000 * minimumIntervalUs
              || presentDelayNs == 0xFFFF_FFFF_FFFF_FFFF < 1000 * minimumIntervalUs
    {
      this.requested := requested;
      presentDelayNs := IntervalNs(minimumIntervalUs);
    }

    /** Either signals at once or queues, never both and never neither. */
    method NotifySemaphore(signal: Signal, device: Device)
      modifies this, device
      ensures stop == old(stop)
      ensures State() == if old(requested) then WithSignal(old(State()), signal) else old(State())
      ensures old(requested) ==> device.driverCalls == old(device.driverCalls)
      ensures old(requested) || !device.entryPoints ==> device.counters == old(device.counters)
      ensures var was := Readable(device.entryPoints, old(device.counters));
              !old(requested) ==>
                && Readable(device.entryPoints, device.counters) == AfterSignal(was, signal)
                && device.driverCalls ==
                     if Allowed(was, signal) then old(device.driverCalls) + [signal] else old(device.driverCalls)
    {
      if !requested {
        Send(signal, device);
        return;
      }
      var groups := pendingGroups;
      pendingGroups := [];
      pendingSignals := pendingSignals + [Pending(signal, groups)];
    }

    method AttachWork(presentId: nat, spans: seq<Q.Span>)
      modifies this
      ensures State() == WithWork(old(State()), Group(presentId, spans)) && stop == old(stop)
    {
      if !requested { return; }
      pendingGroups := pendingGroups + [Group(presentId, spans)];
    }

    /** The worker's locked section when a signal is queued. */
    method TakeNext() returns (p: Pending)
      requires pendingSignals != []
      modifies this`pendingSignals
      ensures p == old(pendingSignals)[0] && pendingSignals == old(pendingSignals)[1..]
    {
      p := pendingSignals[0];
      pendingSignals := pendingSignals[1..];
    }

    /** The worker after stop, for one signal: no waiting. */
    method DrainOne(device: Device)
      requires pendingSignals != []
      modifies this`pendingSignals, device
      ensures pendingSignals == old(pendingSignals)[1..]
      ensures Readable(device.entryPoints, device.counters) ==
                AfterSignal(Readable(device.entryPoints, old(device.counters)), old(pendingSignals)[0].signal)
    {
      var pending := TakeNext();
      Send(pending.signal, device);
    }

    /** The worker after stop: everything queued is signalled, oldest first, without waiting. */
    method DrainAfterStop(device: Device)
      requires stop
      modifies this`pendingSignals, device
      ensures pendingSignals == []
      ensures Readable(device.entryPoints, device.counters) ==
                AfterSignals(Readable(device.entryPoints, old(device.counters)), SignalsOf(old(pendingSignals)))
    {
      ghost var was, counters := pendingSignals, Readable(device.entryPoints, device.counters);
      ghost var k := 0;
      while pendingSignals != []
        invariant k <= |was| && pendingSignals == was[k..]
        invariant Readable(device.entryPoints, device.counters) == AfterSignals(counters, SignalsOf(was[..k]))
        decreases |pendingSignals|
      {
        SignalsOfNext(counters, was, k);
        DrainOne(device);
        k := k + 1;
      }
      assert was[..k] == was;
    }
  }

  lemma SignalsOfNext(c: Counters, ps: seq<Pending>, k: nat)
    requires k < |ps|
    ensures AfterSignals(c, SignalsOf(ps[..k + 1])) ==
              AfterSignal(AfterSignals(c, SignalsOf(ps[..k])), ps[k].signal)
  {
    var now, next := SignalsOf(ps[..k]), SignalsOf(ps[..k + 1]);
    assert next == now + [ps[k].signal];
    assert next[..|next| - 1] == now;
  }

  ghost function SignalsOf(ps: seq<Pending>): (r: seq<Signal>)
    ensures |r| == |ps| && forall i :: 0 <= i < |ps| ==> r[i] == ps[i].signal
  {
    if ps == [] then [] else [ps[0].signal] + SignalsOf(ps[1..])
  }

  ghost function GroupsOf(ps: seq<Pending>): seq<Group> {
    if ps == [] then [] else ps[0].groups + GroupsOf(ps[1..])
  }

  // ----- All interleavings

  datatype Worker =
    | Taking            // about to take the lock
    | Parking           // holds the lock, saw an empty queue and no stop, about to wait
    | Parked
    | Holding(p: Pending)
    | Waiting(p: Pending)
    | Ready(p: Pending)
    | Returned

  datatype System = System(
    m: Guarded,
    immediate: multiset<Signal>,   // notify calls that released the lock and are about to signal
    wakes: nat,                    // notify calls that queued and have not called notify_one yet
    stop: bool,
    stopNotified: bool,
    worker: Worker,
    counters: Counters,            // those that can be read; the others keep their values
    // history
    notified: multiset<Signal>,    // every notify_semaphore call
    queued: seq<Signal>,           // those that were queued, in order
    drained: seq<Signal>,          // what the worker signalled, in order
    sent: seq<Signal>,             // every signal that was carried out, in order
    accepted: seq<Group>,          // attach_work calls that were accepted, in order
    processed: seq<Group>,         // groups of signals the worker is done with, in order
    finished: seq<Pending>)        // those signals with their groups, in order

  datatype Event =
    | Params(requested: bool, delayNs: nat)
    | Notify(s: Signal)
    | SignalNow(s: Signal)
    | WakeOne
    | Attach(work: Group)
    | Stop          // the flag, without the lock
    | NotifyStop    // notify_all, without the lock
    | Take          // the worker's locked section: pop a signal, return, or get ready to wait
    | Park
    | LoadStop      // drain mode, or wait
    | WaitEnd       // groups awaited and delay applied
    | Finish        // the worker's signal

  ghost predicate Enabled(s: System, e: Event) {
    match e
    case Params(_, _) => !s.stop && !s.worker.Parking?
    case Notify(_) => !s.stop && !s.worker.Parking?
    case SignalNow(x) => x in s.immediate
    case WakeOne => s.wakes > 0
    case Attach(_) => !s.stop && !s.worker.Parking?
    case Stop => !s.stop && s.immediate == multiset{} && s.wakes == 0   // no call still borrows the monitor
    case NotifyStop => s.stop && !s.stopNotified
    case Take => s.worker.Taking?
    case Park => s.worker.Parking?
    case LoadStop => s.worker.Holding?
    case WaitEnd => s.worker.Waiting?
    case Finish => s.worker.Ready?
  }

  ghost function Wake(w: Worker): Worker { if w.Parked? then Taking else w }

  ghost function Notified(s: System, x: Signal): System {
    var s' := s.(notified := s.notified + multiset{x});
    if s.m.requested then s'.(m := WithSignal(s.m, x), queued := s.queued + [x], wakes := s.wakes + 1)
    else s'.(immediate := s.immediate + multiset{x})
  }

  ghost function Sent(s: System, x: Signal): System {
    s.(counters := AfterSignal(s.counters, x), sent := s.sent + [x])
  }

  ghost function Attached(s: System, work: Group): System {
    s.(m := WithWork(s.m, work), accepted := if s.m.requested then s.accepted + [work] else s.accepted)
  }

  ghost function Taken(s: System): System {
    if s.m.signals == [] then s.(worker := if s.stop then Returned else Parking)
    else s.(worker := Holding(s.m.signals[0]), m := s.m.(signals := s.m.signals[1..]))
  }

  ghost function Finished(s: System, p: Pending): System {
    Sent(s, p.signal).(worker := Taking, drained := s.drained + [p.signal], processed := s.processed + p.groups,
                       finished := s.finished + [p])
  }

  ghost function Apply(s: System, e: Event): System
    requires Enabled(s, e)
  {
    match e
    case Params(r, ns) => s.(m := WithParams(s.m, r, ns))
    case Notify(x) => Notified(s, x)
    case SignalNow(x) => Sent(s, x).(immediate := s.immediate - multiset{x})
    case Attach(work) => Attached(s, work)
    case WakeOne => s.(wakes := s.wakes - 1, worker := Wake(s.worker))
    case Stop => s.(stop := true)
    case NotifyStop => s.(stopNotified := true, worker := Wake(s.worker))
    case Take => Taken(s)
    case Park => s.(worker := Parked)
    case LoadStop => s.(worker := if s.stop then Ready(s.worker.p) else Waiting(s.worker.p))
    case WaitEnd => s.(worker := Ready(s.worker.p))
    case Finish => Finished(s, s.worker.p)
  }

  ghost function Start(c: Counters): System {
    System(Guarded([], [], 0, false), multiset{}, 0, false, false, Taking, c, multiset{}, [], [], [], [], [], [])
  }

  ghost function After(c: Counters, es: seq<Event>): Option<System> {
    if es == [] then Some(Start(c))
    else
      var before := After(c, es[..|es| - 1]);
      if before.Some? && Enabled(before.value, es[|es| - 1])
      then Some(Apply(before.value, es[|es| - 1])) else None
  }

  /** The signal the worker holds, if any, as a list. */
  ghost function InHand(w: Worker): seq<Pending> {
    if w.Holding? || w.Waiting? || w.Ready? then [w.p] else []
  }

  /** Signals not yet carried out, oldest first. */
  ghost function Line(s: System): seq<Pending> { InHand(s.worker) + s.m.signals }

  /** Queued signals are carried out once each, in FIFO order. */
  ghost predicate SignalOrder(s: System) {
    s.queued == s.drained + SignalsOf(Line(s))
  }

  /** Accepted groups are neither lost, duplicated nor reordered. */
  ghost predicate GroupOrder(s: System) {
    s.accepted == s.processed + GroupsOf(Line(s)) + s.m.groups
  }

  /** Every notified signal is carried out, about to be, or queued: exactly one of them. */
  ghost predicate SignalCount(s: System) {
    s.notified == multiset(s.sent) + s.immediate + multiset(SignalsOf(Line(s)))
  }

  ghost predicate Conserved(s: System) { SignalOrder(s) && GroupOrder(s) && SignalCount(s) }

  ghost predicate Rest(c: Counters, s: System) {
    && s.counters == AfterSignals(c, s.sent)
    && (s.stop ==> s.immediate == multiset{} && s.wakes == 0)
    && (s.stopNotified ==> s.stop)
    && (s.worker.Returned? ==> s.stop && s.m.signals == [])
    && (s.worker.Parking? ==> s.m.signals == [])
    && (s.worker.Parked? && s.m.signals != [] ==> s.wakes > 0)
  }

  ghost predicate Inv(c: Counters, s: System) { Conserved(s) && Rest(c, s) }

  lemma {:induction false} GroupsOfConcat(a: seq<Pending>, b: seq<Pending>)
    ensures GroupsOf(a + b) == GroupsOf(a) + GroupsOf(b)
  {
    if a == [] { assert a + b == b; }
    else {
      assert (a + b)[1..] == a[1..] + b;
      GroupsOfConcat(a[1..], b);
    }
  }

  lemma SignalsOfConcat(a: seq<Pending>, b: seq<Pending>)
    ensures SignalsOf(a + b) == SignalsOf(a) + SignalsOf(b)
  {}

  lemma One(p: Pending)
    ensures SignalsOf([p]) == [p.signal] && GroupsOf([p]) == p.groups
  {
    assert [p][1..] == [];
  }

  lemma LineMoves(s: System, e: Event)
    requires Enabled(s, e)
    ensures var s' := Apply(s, e);
            if e.Notify? && s.m.requested then Line(s') == Line(s) + [Pending(e.s, s.m.groups)]
            else if e.Finish? then Line(s) == [s.worker.p] + Line(s')
            else Line(s') == Line(s)
  {
    match e
    case Notify(x) =>
      if s.m.requested {
        var p := Pending(x, s.m.groups);
        assert InHand(s.worker) + (s.m.signals + [p]) == Line(s) + [p];
      }
    case Take =>
      if s.m.signals != [] { assert s.m.signals == [s.m.signals[0]] + s.m.signals[1..]; }
    case _ =>
  }

  lemma SignalsOfLine(s: System, e: Event)
    requires Enabled(s, e)
    ensures var s' := Apply(s, e);
            if e.Notify? && s.m.requested then SignalsOf(Line(s')) == SignalsOf(Line(s)) + [e.s]
            else if e.Finish? then SignalsOf(Line(s)) == [s.worker.p.signal] + SignalsOf(Line(s'))
            else SignalsOf(Line(s')) == SignalsOf(Line(s))
  {
    LineMoves(s, e);
    if e.Notify? && s.m.requested {
      SignalsOfConcat(Line(s), [Pending(e.s, s.m.groups)]);
      One(Pending(e.s, s.m.groups));
    }
    if e.Finish? { SignalsOfConcat([s.worker.p], Line(Apply(s, e))); One(s.worker.p); }
  }

  lemma GroupsOfLine(s: System, e: Event)
    requires Enabled(s, e)
    ensures var s' := Apply(s, e);
            if e.Notify? && s.m.requested then GroupsOf(Line(s')) == GroupsOf(Line(s)) + s.m.groups
            else if e.Finish? then GroupsOf(Line(s)) == s.worker.p.groups + GroupsOf(Line(s'))
            else GroupsOf(Line(s')) == GroupsOf(Line(s))
  {
    LineMoves(s, e);
    if e.Notify? && s.m.requested {
      GroupsOfConcat(Line(s), [Pending(e.s, s.m.groups)]);
      One(Pending(e.s, s.m.groups));
    }
    if e.Finish? { GroupsOfConcat([s.worker.p], Line(Apply(s, e))); One(s.worker.p); }
  }

  lemma Regroup<T>(a: seq<T>, b: seq<T>, c: seq<T>)
    ensures a + (b + c) == a + b + c
  {}

  lemma SignalOrderKept(s: System, e: Event)
    requires SignalOrder(s) && Enabled(s, e)
    ensures SignalOrder(Apply(s, e))
  {
    SignalsOfLine(s, e);
    if e.Notify? { Regroup(s.drained, SignalsOf(Line(s)), [e.s]); }
    if e.Finish? { Regroup(s.drained, [s.worker.p.signal], SignalsOf(Line(Apply(s, e)))); }
  }

  lemma GroupOrderKept(s: System, e: Event)
    requires GroupOrder(s) && Enabled(s, e)
    ensures GroupOrder(Apply(s, e))
  {
    GroupsOfLine(s, e);
    var g := GroupsOf(Line(s));
    if e.Notify? && s.m.requested { Regroup(s.processed, g, s.m.groups); }
    if e.Attach? { Regroup(s.processed + g, s.m.groups, [e.work]); }
    if e.Finish? { Regroup(s.processed, s.worker.p.groups, GroupsOf(Line(Apply(s, e)))); }
  }

  lemma CountOne<T>(a: seq<T>, x: T)
    ensures multiset(a + [x]) == multiset(a) + multiset{x} == multiset([x] + a)
  {}

  lemma QueuedBalance<T>(notified: multiset<T>, sent: multiset<T>, immediate: multiset<T>, line: seq<T>, x: T)
    requires notified == sent + immediate + multiset(line)
    ensures notified + multiset{x} == sent + immediate + multiset(line + [x])
    ensures notified + multiset{x} == sent + (immediate + multiset{x}) + multiset(line)
  {
    CountOne(line, x);
  }

  lemma ImmediateBalance<T>(notified: multiset<T>, sent: seq<T>, immediate: multiset<T>, line: multiset<T>, x: T)
    requires notified == multiset(sent) + immediate + line && x in immediate
    ensures notified == multiset(sent + [x]) + (immediate - multiset{x}) + line
  {
    CountOne(sent, x);
  }

  lemma DrainedBalance<T>(notified: multiset<T>, sent: seq<T>, immediate: multiset<T>, line: seq<T>, x: T)
    requires notified == multiset(sent) + immediate + multiset([x] + line)
    ensures notified == multiset(sent + [x]) + immediate + multiset(line)
  {
    CountOne(sent, x);
    CountOne(line, x);
  }

  lemma NotifyCounted(s: System, x: Signal)
    requires SignalCount(s) && Enabled(s, Notify(x))
    ensures SignalCount(Notified(s, x))
  {
    SignalsOfLine(s, Notify(x));
    QueuedBalance(s.notified, multiset(s.sent), s.immediate, SignalsOf(Line(s)), x);
  }

  lemma SignalNowCounted(s: System, x: Signal)
    requires SignalCount(s) && Enabled(s, SignalNow(x))
    ensures SignalCount(Apply(s, SignalNow(x)))
  {
    SignalsOfLine(s, SignalNow(x));
    ImmediateBalance(s.notified, s.sent, s.immediate, multiset(SignalsOf(Line(s))), x);
  }

  lemma FinishCounted(s: System)
    requires SignalCount(s) && Enabled(s, Finish)
    ensures SignalCount(Apply(s, Finish))
  {
    SignalsOfLine(s, Finish);
    DrainedBalance(s.notified, s.sent, s.immediate, SignalsOf(Line(Apply(s, Finish))), s.worker.p.signal);
  }

  lemma SignalCountKept(s: System, e: Event)
    requires SignalCount(s) && Enabled(s, e)
    ensures SignalCount(Apply(s, e))
  {
    match e
    case Notify(x) => NotifyCounted(s, x);
    case SignalNow(x) => SignalNowCounted(s, x);
    case Finish => FinishCounted(s);
    case _ => SignalsOfLine(s, e);
  }

  lemma ConservedKept(s: System, e: Event)
    requires Conserved(s) && Enabled(s, e)
    ensures Conserved(Apply(s, e))
  {
    SignalOrderKept(s, e);
    GroupOrderKept(s, e);
    SignalCountKept(s, e);
  }

  lemma SentKept(c: Counters, s: System, x: Signal)
    requires s.counters == AfterSignals(c, s.sent)
    ensures Sent(s, x).counters == AfterSignals(c, Sent(s, x).sent)
  {
    assert Sent(s, x).sent[..|s.sent|] == s.sent;
  }

  lemma RestKept(c: Counters, s: System, e: Event)
    requires Rest(c, s) && Enabled(s, e)
    ensures Rest(c, Apply(s, e))
  {
    match e
    case SignalNow(x) => SentKept(c, s, x);
    case Finish => SentKept(c, s, s.worker.p.signal);
    case _ =>
  }

  lemma {:induction false} Invariant(c: Counters, es: seq<Event>)
    requires After(c, es).Some?
    ensures Inv(c, After(c, es).value)
  {
    if es != [] {
      var n := |es| - 1;
      Invariant(c, es[..n]);
      ConservedKept(After(c, es[..n]).value, es[n]);
      RestKept(c, After(c, es[..n]).value, es[n]);
    } else {
      assert Line(Start(c)) == [];
    }
  }

  /** Over every run, including mode switches and shutdown. */
  lemma SignalsAndGroupsAreConserved(c: Counters, es: seq<Event>)
    requires After(c, es).Some?
    ensures Conserved(After(c, es).value)
  {
    Invariant(c, es);
  }

  // ----- Which work goes with which signal

  /** Whether pacing is on: what the last update_params asked for. */
  ghost function On(es: seq<Event>): bool {
    if es == [] then false
    else match es[|es| - 1]
      case Params(requested, _) => requested
      case _ => On(es[..|es| - 1])
  }

  ghost function DelayNs(es: seq<Event>): nat {
    if es == [] then 0
    else match es[|es| - 1]
      case Params(_, delayNs) => delayNs
      case _ => DelayNs(es[..|es| - 1])
  }

  /** The work attached while pacing was on, since the last signal that came while it was. */
  ghost function Gathered(es: seq<Event>): seq<Group> {
    if es == [] then []
    else
      var before := es[..|es| - 1];
      if !On(before) then Gathered(before)
      else match es[|es| - 1]
        case Notify(_) => []
        case Attach(work) => Gathered(before) + [work]
        case _ => Gathered(before)
  }

  /** The signals that came while pacing was on, each with the work gathered for it. */
  ghost function Paced(es: seq<Event>): seq<Pending> {
    if es == [] then []
    else
      var before := es[..|es| - 1];
      match es[|es| - 1]
      case Notify(x) => Paced(before) + if On(before) then [Pending(x, Gathered(before))] else []
      case _ => Paced(before)
  }

  /** Over every run, the signals the worker has finished, the one it holds and the queued ones
      are those that came while pacing was on, in order, each waiting for exactly the work that
      was attached since the one before it. */
  lemma {:induction false} EachSignalHasItsWork(c: Counters, es: seq<Event>)
    requires After(c, es).Some?
    ensures var s := After(c, es).value;
            && s.m.requested == On(es) && s.m.presentDelayNs == DelayNs(es)
            && s.m.groups == Gathered(es)
            && s.finished + Line(s) == Paced(es)
  {
    if es != [] {
      EachSignalHasItsWork(c, es[..|es| - 1]);
      PacedMoves(After(c, es[..|es| - 1]).value, es[|es| - 1]);
    } else {
      assert Line(Start(c)) == [];
    }
  }

  /** One step adds the signal it queues, with the work gathered so far. */
  lemma PacedMoves(s: System, e: Event)
    requires Enabled(s, e)
    ensures var s' := Apply(s, e);
            s'.finished + Line(s') ==
              s.finished + Line(s) + if e.Notify? && s.m.requested then [Pending(e.s, s.m.groups)] else []
  {
    LineMoves(s, e);
    if e.Notify? && s.m.requested { Regroup(s.finished, Line(s), [Pending(e.s, s.m.groups)]); }
    if e.Finish? { Regroup(s.finished, [s.worker.p], Line(Apply(s, e))); }
  }

  ghost predicate OfWorker(e: Event) { e.Take? || e.LoadStop? || e.WaitEnd? || e.Finish? }

  /** The worker's last step. */
  ghost function LastOfWorker(es: seq<Event>): Option<Event> {
    if es == [] then None
    else if OfWorker(es[|es| - 1]) then Some(es[|es| - 1]) else LastOfWorker(es[..|es| - 1])
  }

  /** Unless it is being stopped, the worker signals only after it has waited. */
  lemma {:induction false} SignalsAfterWaiting(c: Counters, es: seq<Event>)
    requires After(c, es).Some?
    ensures var s := After(c, es).value;
            s.worker.Ready? ==> LastOfWorker(es) == Some(WaitEnd) || (s.stop && LastOfWorker(es) == Some(LoadStop))
  {
    if es != [] {
      SignalsAfterWaiting(c, es[..|es| - 1]);
      BecomesReady(After(c, es[..|es| - 1]).value, es[|es| - 1]);
    }
  }

  lemma BecomesReady(s: System, e: Event)
    requires Enabled(s, e)
    ensures Apply(s, e).worker.Ready? ==>
              if OfWorker(e) then e.WaitEnd? || (e.LoadStop? && Apply(s, e).stop)
              else s.worker.Ready? && (s.stop ==> Apply(s, e).stop)
  {}

  // ----- Nothing is left behind, whatever the schedule

  /** No push is lost: a worker parked on a non-empty queue has a notify coming. */
  lemma NoLostWakeUp(c: Counters, es: seq<Event>)
    requires After(c, es).Some?
    ensures var s := After(c, es).value;
            s.worker.Parked? && s.m.signals != [] ==> Enabled(s, WakeOne)
  {
    Invariant(c, es);
  }

  /** Steps that calls and the worker have begun; only new calls and the shutdown are left out. */
  ghost predicate Internal(e: Event) {
    e.SignalNow? || e.WakeOne? || e.Take? || e.Park? || e.LoadStop? || e.WaitEnd? || e.Finish?
  }

  ghost predicate Quiet(s: System) { forall e: Event :: Internal(e) ==> !Enabled(s, e) }

  ghost function Stage(w: Worker): nat {
    match w
    case Returned => 0 case Parked => 0 case Parking => 1 case Taking => 2
    case Ready(_) => 3 case Waiting(_) => 4 case Holding(_) => 5
  }

  /** A bound on the internal steps that can still happen. */
  ghost function Rank(s: System): nat {
    4 * |s.m.signals| + 3 * s.wakes + |s.immediate| + Stage(s.worker)
  }

  lemma RankFalls(s: System, e: Event)
    requires Internal(e) && Enabled(s, e)
    ensures Rank(Apply(s, e)) < Rank(s)
  {}

  lemma QuietWorker(s: System)
    requires Quiet(s)
    ensures s.immediate == multiset{} && s.wakes == 0 && (s.worker.Parked? || s.worker.Returned?)
  {
    if x :| x in s.immediate { assert Enabled(s, SignalNow(x)); }
    assert !Enabled(s, WakeOne) && !Enabled(s, Take) && !Enabled(s, Park);
    assert !Enabled(s, LoadStop) && !Enabled(s, WaitEnd) && !Enabled(s, Finish);
  }

  /** When the worker has returned, or when all threads have done what they can, every signal
      the application ever asked for has been carried out exactly once, the queued ones in
      order, and every thread waiting on one of them is released. */
  lemma NoSleeperIsLeftBehind(c: Counters, es: seq<Event>)
    requires After(c, es).Some?
    requires After(c, es).value.worker.Returned? || Quiet(After(c, es).value)
    ensures var s := After(c, es).value;
            && multiset(s.sent) == s.notified
            && s.drained == s.queued
            && forall x :: x in s.notified && x.semaphore in c ==>
                 x.semaphore in s.counters && s.counters[x.semaphore] >= x.value
  {
    Invariant(c, es);
    var s := After(c, es).value;
    if !s.worker.Returned? { QuietWorker(s); }
    assert Line(s) == [];
    forall x | x in s.notified && x.semaphore in c
      ensures x.semaphore in s.counters && s.counters[x.semaphore] >= x.value
    {
      assert x in multiset(s.sent);
      EveryWaiterIsReleased(c, s.sent, x);
    }
  }

  // ----- Shutdown

  /** After the stop was notified, a worker on its way into the wait never returns. */
  ghost predicate Doomed(s: System) { s.worker.Parking? || s.worker.Parked? }

  lemma NotifyStopDecides(s: System)
    requires Enabled(s, NotifyStop)
    ensures var s' := Apply(s, NotifyStop);
            s'.stop && s'.stopNotified && (Doomed(s') <==> s.worker.Parking?)
  {}

  lemma DoomKept(s: System, e: Event)
    requires s.stop && s.stopNotified && s.wakes == 0 && Enabled(s, e)
    ensures var s' := Apply(s, e);
            s'.stop && s'.stopNotified && (Doomed(s') <==> Doomed(s))
  {}

  lemma LastStep(c: Counters, es: seq<Event>, e: Event)
    requires After(c, es + [e]).Some?
    ensures After(c, es).Some? && Enabled(After(c, es).value, e)
    ensures After(c, es + [e]).value == Apply(After(c, es).value, e)
  {
    assert (es + [e])[..|es|] == es;
  }

  lemma {:induction false} DoomIsDecided(c: Counters, es: seq<Event>, fs: seq<Event>)
    requires After(c, es + [NotifyStop] + fs).Some?
    ensures After(c, es).Some?
    ensures var s := After(c, es + [NotifyStop] + fs).value;
            s.stop && s.stopNotified && (Doomed(s) <==> After(c, es).value.worker.Parking?)
  {
    if fs == [] {
      assert es + [NotifyStop] + fs == es + [NotifyStop];
      LastStep(c, es, NotifyStop);
      NotifyStopDecides(After(c, es).value);
    } else {
      var init, last := es + [NotifyStop] + fs[..|fs| - 1], fs[|fs| - 1];
      assert es + [NotifyStop] + fs == init + [last];
      LastStep(c, init, last);
      DoomIsDecided(c, es, fs[..|fs| - 1]);
      Invariant(c, init);
      DoomKept(After(c, init).value, last);
    }
  }

  /** The stop is notified without the lock.  Once everything has run that can, the worker has
      returned (and the join with it) exactly unless that notify fell between the worker's last
      look at the flag and its wait. */
  lemma ShutdownEndsIff(c: Counters, es: seq<Event>, fs: seq<Event>)
    requires After(c, es + [NotifyStop] + fs).Some?
    requires Quiet(After(c, es + [NotifyStop] + fs).value)
    ensures After(c, es).Some?
    ensures After(c, es + [NotifyStop] + fs).value.worker.Returned? <==> !After(c, es).value.worker.Parking?
  {
    DoomIsDecided(c, es, fs);
    QuietWorker(After(c, es + [NotifyStop] + fs).value);
  }

  /** The exception is real: a monitor that was never used can miss its shutdown. */
  lemma StopCanBeMissed(c: Counters)
    ensures exists es ::
              && After(c, es).Some?
              && var s := After(c, es).value;
                 s.stopNotified && s.worker.Parked? && Quiet(s)
  {
    var s1 := Start(c).(worker := Parking);
    var s3 := s1.(stop := true, stopNotified := true);
    OneMore(c, [], Start(c), Take);
    OneMore(c, [] + [Take], s1, Stop);
    OneMore(c, [] + [Take] + [Stop], s1.(stop := true), NotifyStop);
    OneMore(c, [] + [Take] + [Stop] + [NotifyStop], s3, Park);
    assert Quiet(s3.(worker := Parked));
  }

  lemma OneMore(c: Counters, es: seq<Event>, s: System, e: Event)
    requires After(c, es) == Some(s) && Enabled(s, e)
    ensures After(c, es + [e]) == Some(Apply(s, e))
  {
    assert (es + [e])[..|es|] == es;
  }
}
