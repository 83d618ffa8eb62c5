/** How producers wake a parked worker: lock-free push, then lock and notify_one; the worker
    drains, re-checks the queue under the lock and only then parks.  The timestamp reaper and
    the present-wait worker both follow it; they differ in the drain after stop (finalDrain).
    Every load, store, push, pop, lock and notify is one event. */
module WakeProtocol {
  import opened Wrappers

  /** What is queued, by number. */
  type Item = nat

  datatype Worker =
    | Draining        // popping until the queue is seen empty
    | CheckingStop    // about to load stop
    | LastDrain       // stop seen: popping what raced in
    | Locking         // about to take the lock
    | Rechecking      // holds the lock, about to test the queue
    | SawEmpty        // holds the lock, about to load stop again
    | Parking         // holds the lock, about to wait
    | Parked
    | Woken           // notified, about to take the lock again
    | Done

  datatype Producer = Pushed | Locked
  datatype Holder = Nobody | TheWorker | AProducer(p: nat)

  datatype State = State(
    finalDrain: bool,
    queue: seq<Item>,
    popped: seq<Item>,                  // history: what the worker took, in order
    producers: map<nat, Producer>,   // producers between their push and their notify
    holder: Holder,
    worker: Worker,
    stop: bool,
    stopNotified: bool)

  datatype Event =
    | Push(p: nat, item: Item)
    | Lock(p: nat)
    | Notify(p: nat)
    | Work             // the worker's next atomic operation
    | SetStop
    | NotifyStop       // notify_all, without the lock

  ghost predicate Enabled(s: State, e: Event) {
    match e
    case Push(p, _) => p !in s.producers
    case Lock(p) => p in s.producers && s.producers[p].Pushed? && s.holder.Nobody?
    case Notify(p) => p in s.producers && s.producers[p].Locked?
    case Work =>
      && !s.worker.Parked? && !s.worker.Done?
      && (s.worker.Locking? || s.worker.Woken? ==> s.holder.Nobody?)
    case SetStop => !s.stop
    case NotifyStop => s.stop && !s.stopNotified
  }

  ghost function Wake(w: Worker): Worker { if w.Parked? then Woken else w }

  ghost function WorkerStep(s: State): State
    requires Enabled(s, Work)
  {
    match s.worker
    case Draining =>
      if s.queue == [] then s.(worker := CheckingStop)
      else s.(queue := s.queue[1..], popped := s.popped + [s.queue[0]])
    case CheckingStop =>
      s.(worker := if !s.stop then Locking else if s.finalDrain then LastDrain else Done)
    case LastDrain =>
      if s.queue == [] then s.(worker := Done)
      else s.(queue := s.queue[1..], popped := s.popped + [s.queue[0]])
    case Locking => s.(worker := Rechecking, holder := TheWorker)
    case Rechecking =>
      if s.queue == [] then s.(worker := SawEmpty) else s.(worker := Draining, holder := Nobody)
    case SawEmpty =>
      if s.stop then s.(worker := Draining, holder := Nobody) else s.(worker := Parking)
    case Parking => s.(worker := Parked, holder := Nobody)
    case Woken => s.(worker := Draining)
  }

  ghost function Apply(s: State, e: Event): State
    requires Enabled(s, e)
  {
    match e
    case Push(p, item) => s.(queue := s.queue + [item], producers := s.producers[p := Pushed])
    case Lock(p) => s.(producers := s.producers[p := Locked], holder := AProducer(p))
    case Notify(p) => s.(producers := s.producers - {p}, holder := Nobody, worker := Wake(s.worker))
    case Work => WorkerStep(s)
    case SetStop => s.(stop := true)
    case NotifyStop => s.(stopNotified := true, worker := Wake(s.worker))
  }

  ghost function Start(finalDrain: bool): State {
    State(finalDrain, [], [], map[], Nobody, Draining, false, false)
  }

  /** The state after running es from s, or None when some event was not possible. */
  ghost function Run(s: State, es: seq<Event>): Option<State> {
    if es == [] then Some(s)
    else
      var before := Run(s, es[..|es| - 1]);
      if before.Some? && Enabled(before.value, es[|es| - 1])
      then Some(Apply(before.value, es[|es| - 1])) else None
  }

  ghost function PushedItems(es: seq<Event>): seq<Item> {
    if es == [] then []
    else PushedItems(es[..|es| - 1]) + (if es[|es| - 1].Push? then [es[|es| - 1].item] else [])
  }

  // ----- Invariant

  ghost predicate HasLock(w: Worker) { w.Rechecking? || w.SawEmpty? || w.Parking? }

  /** Who holds the lock is where it should be. */
  ghost predicate LockInv(s: State) {
    && (s.holder.TheWorker? <==> HasLock(s.worker))
    && (forall p :: p in s.producers && s.producers[p].Locked? <==> s.holder == AProducer(p))
  }

  /** A worker about to sleep on a non-empty queue has a producer to wake it. */
  ghost predicate WakeInv(s: State) {
    && ((s.worker.SawEmpty? || s.worker.Parking? || s.worker.Parked?) && s.queue != [] ==> s.producers != map[])
    && (s.stopNotified ==> s.stop)
    && ((s.worker.Done? || s.worker.LastDrain?) ==> s.stop)
    && (s.worker.LastDrain? ==> s.finalDrain)
  }

  ghost predicate Inv(s: State) { LockInv(s) && WakeInv(s) }

  lemma WorkKeepsLock(s: State)
    requires LockInv(s) && Enabled(s, Work)
    ensures LockInv(WorkerStep(s))
  {}

  lemma WorkKeepsWake(s: State)
    requires WakeInv(s) && Enabled(s, Work)
    ensures WakeInv(WorkerStep(s))
  {}

  lemma InvKept(s: State, e: Event)
    requires Inv(s) && Enabled(s, e)
    ensures Inv(Apply(s, e))
  {
    match e
    case Push(p, _) => assert p in Apply(s, e).producers;
    case Lock(p) => assert p in Apply(s, e).producers;
    case Work =>
      WorkKeepsLock(s);
      WorkKeepsWake(s);
    case _ =>
  }

  lemma {:induction false} RunInv(s: State, es: seq<Event>)
    requires Inv(s) && Run(s, es).Some?
    ensures Inv(Run(s, es).value)
  {
    if es != [] {
      RunInv(s, es[..|es| - 1]);
      InvKept(Run(s, es[..|es| - 1]).value, es[|es| - 1]);
    }
  }

  /** No push is ever lost: a worker parked on a non-empty queue has a notify coming. */
  lemma NoLostWakeUp(finalDrain: bool, es: seq<Event>)
    requires Run(Start(finalDrain), es).Some?
    ensures var s := Run(Start(finalDrain), es).value;
            s.worker.Parked? && s.queue != [] ==> exists p :: p in s.producers
  {
    RunInv(Start(finalDrain), es);
    var s := Run(Start(finalDrain), es).value;
    if s.producers != map[] { var p :| p in s.producers; }
  }

  /** The worker takes the pushed items in push order, each once. */
  lemma {:induction false} TakenInOrder(finalDrain: bool, es: seq<Event>)
    requires Run(Start(finalDrain), es).Some?
    ensures var s := Run(Start(finalDrain), es).value;
            s.popped + s.queue == PushedItems(es)
  {
    if es != [] {
      var n := |es| - 1;
      TakenInOrder(finalDrain, es[..n]);
      QueueMoves(Run(Start(finalDrain), es[..n]).value, es[n]);
    }
  }

  lemma QueueMoves(s: State, e: Event)
    requires Enabled(s, e)
    ensures var s' := Apply(s, e);
            s'.popped + s'.queue == s.popped + s.queue + (if e.Push? then [e.item] else [])
  {
    if s.queue != [] { assert (s.popped + [s.queue[0]]) + s.queue[1..] == s.popped + s.queue; }
    if e.Push? { assert s.popped + (s.queue + [e.item]) == (s.popped + s.queue) + [e.item]; }
  }

  // ----- Progress without fairness

  /** Everything but a new push or a step of the stopping thread. */
  ghost predicate Internal(e: Event) { e.Lock? || e.Notify? || e.Work? }

  ghost predicate Quiet(s: State) { forall e: Event :: Internal(e) ==> !Enabled(s, e) }

  ghost function Steps(s: State): nat {
    if s.queue != [] then
      match s.worker
      case SawEmpty => 5 case Parking => 4 case CheckingStop => 4 case Parked => 3 case Locking => 3
      case Rechecking => 2 case Woken => 2 case Draining => 1 case LastDrain => 1 case Done => 0
    else if s.stop then
      match s.worker
      case Locking => 9 case Rechecking => 8 case SawEmpty => 7 case Woken => 7 case Draining => 6
      case CheckingStop => 5 case LastDrain => 4 case Parking => 3 case Parked => 0 case Done => 0
    else
      match s.worker
      case Woken => 9 case Draining => 8 case CheckingStop => 7 case Locking => 6 case Rechecking => 5
      case SawEmpty => 4 case Parking => 3 case LastDrain => 2 case Parked => 0 case Done => 0
  }

  /** A bound on the internal events that can still happen. */
  ghost function Rank(s: State): int {
    10 * |s.queue| + 10 * (2 * |s.producers| - if s.holder.AProducer? then 1 else 0) + Steps(s)
  }

  lemma PopFalls(s: State)
    requires Inv(s) && Enabled(s, Work) && s.queue != []
    ensures var s' := WorkerStep(s);
            10 * |s'.queue| + Steps(s') < 10 * |s.queue| + Steps(s)
  {}

  lemma StepFalls(s: State)
    requires Inv(s) && Enabled(s, Work) && s.queue == []
    ensures WorkerStep(s).queue == [] && Steps(WorkerStep(s)) < Steps(s)
  {}

  lemma WorkerStepFalls(s: State)
    requires Inv(s) && Enabled(s, Work)
    ensures var s' := WorkerStep(s);
            10 * |s'.queue| + Steps(s') < 10 * |s.queue| + Steps(s)
    ensures var s' := WorkerStep(s); s'.producers == s.producers && s'.holder.AProducer? == s.holder.AProducer?
  {
    if s.queue == [] { StepFalls(s); } else { PopFalls(s); }
  }

  lemma RankFalls(s: State, e: Event)
    requires Inv(s) && Enabled(s, e) && Internal(e)
    ensures 0 <= Rank(Apply(s, e)) < Rank(s)
  {
    InvKept(s, e);
    RankNatural(Apply(s, e));
    match e
    case Lock(p) => KeysSize(s.producers, s.producers[p := Locked], p);
    case Notify(p) => KeysSize(s.producers, s.producers - {p}, p);
    case Work => WorkerStepFalls(s);
  }

  lemma KeysSize(m: map<nat, Producer>, m': map<nat, Producer>, p: nat)
    requires p in m
    ensures m' == m[p := Locked] ==> |m'| == |m|
    ensures m' == m - {p} ==> |m'| == |m| - 1
  {
    if m' == m[p := Locked] { assert m'.Keys == m.Keys; }
    if m' == m - {p} { assert m'.Keys == m.Keys - {p}; }
  }

  lemma RankNatural(s: State)
    requires forall p :: p in s.producers && s.producers[p].Locked? <==> s.holder == AProducer(p)
    ensures Rank(s) >= 0
  {
    if s.holder.AProducer? { assert s.holder.p in s.producers; }
  }

  /** Any schedule of internal events ends after at most Rank(s) of them. */
  lemma {:induction false} InternalRunsEnd(s: State, fs: seq<Event>)
    requires Inv(s) && Run(s, fs).Some?
    requires forall i :: 0 <= i < |fs| ==> Internal(fs[i])
    ensures Rank(Run(s, fs).value) <= Rank(s) - |fs| && |fs| <= Rank(s)
  {
    var n := |fs|;
    if n == 0 { RankNatural(s); return; }
    InternalRunsEnd(s, fs[..n - 1]);
    RunInv(s, fs[..n - 1]);
    RankFalls(Run(s, fs[..n - 1]).value, fs[n - 1]);
  }

  lemma SomethingToDo(s: State)
    requires Inv(s)
    requires s.producers != map[] || !(s.worker.Parked? || s.worker.Done?)
    ensures exists e :: Internal(e) && Enabled(s, e)
  {
    if s.holder.AProducer? {
      assert Enabled(s, Notify(s.holder.p));
    } else if s.holder.TheWorker? || !(s.worker.Parked? || s.worker.Done?) {
      assert Enabled(s, Work);
    } else {
      var p :| p in s.producers;
      assert Enabled(s, Lock(p));
    }
  }

  lemma QuietMeansParkedOrDone(s: State)
    requires Inv(s) && Quiet(s)
    ensures s.producers == map[] && (s.worker.Parked? || s.worker.Done?)
    ensures s.worker.Parked? ==> s.queue == []
  {
    if s.producers != map[] || !(s.worker.Parked? || s.worker.Done?) { SomethingToDo(s); }
  }

  /** While nobody stops the worker, letting the threads run until nothing is left to do
      leaves an empty queue: every pushed item was taken. */
  lemma EveryPushIsTaken(finalDrain: bool, es: seq<Event>)
    requires Run(Start(finalDrain), es).Some?
    requires var s := Run(Start(finalDrain), es).value; !s.stop && Quiet(s)
    ensures var s := Run(Start(finalDrain), es).value;
            s.worker.Parked? && s.popped == PushedItems(es)
  {
    RunInv(Start(finalDrain), es);
    QuietMeansParkedOrDone(Run(Start(finalDrain), es).value);
    TakenInOrder(finalDrain, es);
  }

  // ----- Stopping, which notifies without the lock

  /** Nothing will wake the worker again unless a new push comes. */
  ghost predicate Doomed(s: State) {
    (s.worker.Parking? || s.worker.Parked?) && s.producers == map[]
  }

  lemma DoomKept(s: State, e: Event)
    requires Inv(s) && s.stop && Enabled(s, e) && Internal(e)
    ensures Apply(s, e).stop && (Doomed(Apply(s, e)) <==> Doomed(s))
  {
    match e
    case Lock(p) => assert p in Apply(s, e).producers;
    case Notify(p) =>
    case Work =>
  }

  lemma {:induction false} DoomKeptByRuns(s: State, fs: seq<Event>)
    requires Inv(s) && s.stop && Run(s, fs).Some?
    requires forall i :: 0 <= i < |fs| ==> Internal(fs[i])
    ensures Run(s, fs).value.stop && (Doomed(Run(s, fs).value) <==> Doomed(s))
  {
    if fs != [] {
      var n := |fs| - 1;
      DoomKeptByRuns(s, fs[..n]);
      RunInv(s, fs[..n]);
      DoomKept(Run(s, fs[..n]).value, fs[n]);
    }
  }

  /** After the stopping thread's notify, and with no further push, the worker ends (and the
      join returns) exactly unless the notify fell between the worker's last load of stop and
      its wait, with no producer on its way to a notify. */
  lemma StopEndsWorkerIff(finalDrain: bool, es: seq<Event>, fs: seq<Event>)
    requires Run(Start(finalDrain), es).Some?
    requires Enabled(Run(Start(finalDrain), es).value, NotifyStop)
    requires var s := Apply(Run(Start(finalDrain), es).value, NotifyStop);
             Run(s, fs).Some? && Quiet(Run(s, fs).value)
    requires forall i :: 0 <= i < |fs| ==> Internal(fs[i])
    ensures var before := Run(Start(finalDrain), es).value;
            Run(Apply(before, NotifyStop), fs).value.worker.Done? <==>
              !(before.worker.Parking? && before.producers == map[])
  {
    var before := Run(Start(finalDrain), es).value;
    RunInv(Start(finalDrain), es);
    InvKept(before, NotifyStop);
    var s := Apply(before, NotifyStop);
    DoomKeptByRuns(s, fs);
    RunInv(s, fs);
    QuietMeansParkedOrDone(Run(s, fs).value);
  }

  /** With the final drain, the step in which the worker ends looks at the queue once more, and
      everything pushed until then has been taken. */
  lemma FinalDrainTakesAll(es: seq<Event>, e: Event)
    requires Run(Start(true), es + [e]).Some?
    requires !Run(Start(true), es).value.worker.Done? && Run(Start(true), es + [e]).value.worker.Done?
    ensures Run(Start(true), es + [e]).value.popped == PushedItems(es + [e])
  {
    assert (es + [e])[..|es|] == es;
    TakenInOrder(true, es + [e]);
    FinalDrainStays(es);
  }

  lemma {:induction false} FinalDrainStays(es: seq<Event>)
    requires Run(Start(true), es).Some?
    ensures Run(Start(true), es).value.finalDrain
  {
    if es != [] { FinalDrainStays(es[..|es| - 1]); }
  }

  lemma LastStep(s: State, es: seq<Event>)
    requires es != [] && Run(s, es).Some?
    ensures var before := Run(s, es[..|es| - 1]);
            before.Some? && Enabled(before.value, es[|es| - 1]) && Run(s, es).value == Apply(before.value, es[|es| - 1])
  {}

  lemma DoneTakesNothing(s: State, e: Event)
    requires Enabled(s, e) && s.worker.Done?
    ensures Apply(s, e).popped == s.popped && Apply(s, e).worker.Done?
  {}

  /** The k-th event of the run was the one in which the worker ended. */
  ghost predicate EndsAt(es: seq<Event>, k: nat) {
    && 0 < k <= |es| && Run(Start(true), es[..k]).Some? && Run(Start(true), es[..k - 1]).Some?
    && !Run(Start(true), es[..k - 1]).value.worker.Done? && Run(Start(true), es[..k]).value.worker.Done?
  }

  lemma EndsAtLater(es: seq<Event>, k: nat)
    requires es != [] && EndsAt(es[..|es| - 1], k)
    ensures EndsAt(es, k) && es[..|es| - 1][..k] == es[..k]
  {
    var n := |es| - 1;
    assert es[..n][..k] == es[..k] && es[..n][..k - 1] == es[..k - 1];
  }

  /** So a worker that has ended has taken everything pushed before it did. */
  lemma {:induction false} NothingOlderIsLeft(es: seq<Event>) returns (k: nat)
    requires Run(Start(true), es).Some? && Run(Start(true), es).value.worker.Done?
    ensures EndsAt(es, k) && Run(Start(true), es).value.popped == PushedItems(es[..k])
  {
    var n := |es| - 1;
    LastStep(Start(true), es);
    if Run(Start(true), es[..n]).value.worker.Done? {
      k := NothingOlderIsLeft(es[..n]);
      DoneTakesNothing(Run(Start(true), es[..n]).value, es[n]);
      EndsAtLater(es, k);
    } else {
      k := n + 1;
      assert es[..k] == es == es[..n] + [es[n]];
      FinalDrainTakesAll(es[..n], es[n]);
    }
  }

  /** The excluded case is reachable: a stop that the worker never notices. */
  lemma StopCanBeMissed(finalDrain: bool)
    ensures exists es ::
              && Run(Start(finalDrain), es).Some?
              && var s := Run(Start(finalDrain), es).value;
                 s.stop && s.stopNotified && s.worker.Parked? && Quiet(s)
  {
    var s0 := Start(finalDrain);
    var s5 := s0.(worker := Parking, holder := TheWorker);
    var es := WorkerReachesParking(s0);
    var s6 := s5.(stop := true);
    RunMore(s0, es, s5, SetStop);
    RunMore(s0, es + [SetStop], s6, NotifyStop);
    RunMore(s0, es + [SetStop] + [NotifyStop], s6.(stopNotified := true), Work);
    var s := Run(s0, es + [SetStop] + [NotifyStop] + [Work]).value;
    assert s.worker.Parked? && s.producers == map[];
    assert Quiet(s);
  }

  lemma WorkerReachesParking(s0: State) returns (es: seq<Event>)
    requires s0 == Start(s0.finalDrain)
    ensures Run(s0, es) == Some(s0.(worker := Parking, holder := TheWorker))
  {
    var es1, s1 := WorkMore(s0, [], s0);
    var es2, s2 := WorkMore(s0, es1, s1);
    var es3, s3 := WorkMore(s0, es2, s2);
    var es4, s4 := WorkMore(s0, es3, s3);
    var es5, s5 := WorkMore(s0, es4, s4);
    es := es5;
  }

  lemma WorkMore(s: State, es: seq<Event>, sn: State) returns (es': seq<Event>, sn': State)
    requires Run(s, es) == Some(sn) && Enabled(sn, Work)
    ensures Run(s, es') == Some(sn') && sn' == WorkerStep(sn)
  {
    RunMore(s, es, sn, Work);
    es', sn' := es + [Work], WorkerStep(sn);
  }

  lemma RunMore(s: State, es: seq<Event>, sn: State, e: Event)
    requires Run(s, es) == Some(sn) && Enabled(sn, e)
    ensures Run(s, es + [e]) == Some(Apply(sn, e))
  {
    assert (es + [e])[..|es|] == es;
  }
}
