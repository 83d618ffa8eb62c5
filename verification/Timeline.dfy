/** Timeline semaphores and the layer's tolerant signal: Reflex may ask for a value twice,
    while section 7.4 (Semaphores) of the Vulkan 1.3 specification demands that a host
    signal exceed the current value. */
module Timeline {

  datatype Signal = Signal(semaphore: nat, value: nat)

  /** The current value of every timeline semaphore of the device. */
  type Counters = map<nat, nat>

  /** vkSignalSemaphore may be called with s. */
  predicate Allowed(c: Counters, s: Signal) {
    s.semaphore in c && c[s.semaphore] < s.value
  }

  /** What one signal leaves: nothing changes when the value is not ahead, or when the
      counter cannot be read. */
  function AfterSignal(c: Counters, s: Signal): Counters {
    if Allowed(c, s) then c[s.semaphore := s.value] else c
  }

  function AfterSignals(c: Counters, ss: seq<Signal>): Counters {
    if ss == [] then c else AfterSignal(AfterSignals(c, ss[..|ss| - 1]), ss[|ss| - 1])
  }

  class Device {
    const entryPoints: bool              // both timeline functions are loaded
    var counters: Counters
    ghost var driverCalls: seq<Signal>   // the vkSignalSemaphore calls made so far

    constructor (entryPoints: bool, counters: Counters)
      ensures this.entryPoints == entryPoints && this.counters == counters && driverCalls == []
    {
      this.entryPoints, this.counters := entryPoints, counters;
      driverCalls := [];
    }

    /** vkSignalSemaphore, with what the specification demands of its caller. */
    method SignalSemaphore(s: Signal)
      requires Allowed(counters, s)
      modifies this
      ensures counters == old(counters)[s.semaphore := s.value]
      ensures driverCalls == old(driverCalls) + [s]
    {
      counters := counters[s.semaphore := s.value];
      driverCalls := driverCalls + [s];
    }
  }

  /** The counters a signal can read: none without the entry points. */
  function Readable(entryPoints: bool, c: Counters): Counters { if entryPoints then c else map[] }

  /** SemaphoreSignal::signal: a signal that cannot be carried out is dropped. */
  method Send(s: Signal, device: Device)
    modifies device
    ensures var was := Readable(device.entryPoints, old(device.counters));
            && Readable(device.entryPoints, device.counters) == AfterSignal(was, s)
            && device.driverCalls == if Allowed(was, s) then old(device.driverCalls) + [s] else old(device.driverCalls)
    ensures !device.entryPoints ==> device.counters == old(device.counters)
    ensures device.driverCalls != old(device.driverCalls) ==>
              s.semaphore in old(device.counters) && old(device.counters)[s.semaphore] < s.value
  {
    if !device.entryPoints { return; }
    if s.semaphore !in device.counters { return; }
    var current := device.counters[s.semaphore];
    if current >= s.value { return; }
    device.SignalSemaphore(s);
  }

  // ----- What a sequence of signals leaves

  /** v is the largest of base and the values ss asks of the semaphore. */
  ghost predicate IsHighest(ss: seq<Signal>, semaphore: nat, base: nat, v: nat) {
    && v >= base
    && (forall i :: 0 <= i < |ss| && ss[i].semaphore == semaphore ==> v >= ss[i].value)
    && (v == base || exists i :: 0 <= i < |ss| && ss[i] == Signal(semaphore, v))
  }

  /** Every semaphore ends at the highest of its start and the requested values. */
  lemma {:induction false} SignalsLeaveTheHighest(c: Counters, ss: seq<Signal>)
    ensures AfterSignals(c, ss).Keys == c.Keys
    ensures forall x :: x in c ==> IsHighest(ss, x, c[x], AfterSignals(c, ss)[x])
  {
    if ss != [] {
      var n := |ss| - 1;
      SignalsLeaveTheHighest(c, ss[..n]);
      var before := AfterSignals(c, ss[..n]);
      forall x | x in c ensures IsHighest(ss, x, c[x], AfterSignals(c, ss)[x]) {
        assert IsHighest(ss[..n], x, c[x], before[x]);
        var v := AfterSignals(c, ss)[x];
        if v != c[x] {
          if v == before[x] {
            var i :| 0 <= i < n && ss[..n][i] == Signal(x, v);
            assert ss[i] == Signal(x, v);
          } else {
            assert ss[n] == Signal(x, v);
          }
        }
        forall i | 0 <= i < |ss| && ss[i].semaphore == x ensures v >= ss[i].value {
          if i < n { assert ss[..n][i] == ss[i]; }
        }
      }
    }
  }

  /** Whoever waits for a requested value is released. */
  lemma EveryWaiterIsReleased(c: Counters, ss: seq<Signal>, s: Signal)
    requires s in ss && s.semaphore in c
    ensures s.semaphore in AfterSignals(c, ss) && AfterSignals(c, ss)[s.semaphore] >= s.value
  {
    SignalsLeaveTheHighest(c, ss);
    assert IsHighest(ss, s.semaphore, c[s.semaphore], AfterSignals(c, ss)[s.semaphore]);
  }

  /** The order of the signals does not matter. */
  lemma OrderDoesNotMatter(c: Counters, ss: seq<Signal>, ts: seq<Signal>)
    requires multiset(ss) == multiset(ts)
    ensures AfterSignals(c, ss) == AfterSignals(c, ts)
  {
    SignalsLeaveTheHighest(c, ss);
    SignalsLeaveTheHighest(c, ts);
    assert forall s :: s in multiset(ss) <==> s in multiset(ts);
    forall x | x in c ensures AfterSignals(c, ss)[x] == AfterSignals(c, ts)[x] {
      assert IsHighest(ss, x, c[x], AfterSignals(c, ss)[x]);
      assert IsHighest(ts, x, c[x], AfterSignals(c, ts)[x]);
      HighestOfSameSignals(ss, ts, x, c[x], AfterSignals(c, ss)[x], AfterSignals(c, ts)[x]);
      HighestOfSameSignals(ts, ss, x, c[x], AfterSignals(c, ts)[x], AfterSignals(c, ss)[x]);
    }
  }

  lemma HighestOfSameSignals(ss: seq<Signal>, ts: seq<Signal>, x: nat, base: nat, v: nat, w: nat)
    requires multiset(ss) == multiset(ts)
    requires IsHighest(ss, x, base, v) && IsHighest(ts, x, base, w)
    ensures v <= w
  {
    if v != base {
      var i :| 0 <= i < |ss| && ss[i] == Signal(x, v);
      assert Signal(x, v) in multiset(ts);
    }
  }
}
