/** The host's monotonic clock, as the sequence of its readings. */
module HostClock {

  predicate Ticks(clock: nat -> nat, i: nat) { clock(i) < clock(i + 1) }

  /** Every reading is later than the one before. */
  ghost predicate Advancing(clock: nat -> nat) { forall i: nat :: Ticks(clock, i) }

  lemma {:induction false} Advances(clock: nat -> nat, i: nat, j: nat)
    requires Advancing(clock) && i <= j
    ensures clock(i) + (j - i) <= clock(j)
    decreases j - i
  {
    if i < j {
      Advances(clock, i, j - 1);
      assert Ticks(clock, j - 1);
    }
  }

  /** What is left of a budget at a tick. */
  function Left(clock: nat -> nat, deadline: nat, tick: nat): nat {
    if clock(tick) >= deadline then 0 else deadline - clock(tick)
  }

  /** The first reading from tick on that has reached the deadline. */
  ghost function FirstAt(clock: nat -> nat, deadline: nat, tick: nat): (k: nat)
    requires Advancing(clock)
    ensures k >= tick && clock(k) >= deadline && forall i :: tick <= i < k ==> clock(i) < deadline
    decreases Left(clock, deadline, tick)
  {
    assert Ticks(clock, tick);
    if clock(tick) >= deadline then tick else FirstAt(clock, deadline, tick + 1)
  }

  predicate Soon(clock: nat -> nat, gap: nat, i: nat) { clock(i + 1) <= clock(i) + gap }

  /** Readings are at most gap apart. */
  ghost predicate Prompt(clock: nat -> nat, gap: nat) { forall i: nat :: Soon(clock, gap, i) }

  /** Then the deadline is overshot by less than a gap. */
  lemma FirstAtSoon(clock: nat -> nat, deadline: nat, tick: nat, gap: nat)
    requires Advancing(clock) && Prompt(clock, gap)
    ensures var k := FirstAt(clock, deadline, tick);
            clock(k) <= clock(tick) || clock(k) < deadline + gap
  {
    var k := FirstAt(clock, deadline, tick);
    if k > tick { assert Soon(clock, gap, k - 1); }
  }
}
