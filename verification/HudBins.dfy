/** The HUD's plots: records binned by absolute time, and the gaps between frame numbers. */
module HudBins {
  datatype Record = Record(tsNs: nat, frame: nat, latencyUs: nat)

  datatype Bin = Bin(key: nat, records: seq<Record>, widthNs: nat, isCurrent: bool)

  /** now_ns.saturating_sub(window_ns) */
  function Cutoff(now: nat, window: nat): nat { if now < window then 0 else now - window }

  predicate InWindow(r: Record, now: nat, window: nat) { Cutoff(now, window) <= r.tsNs <= now }

  /** The records for which f holds, in their order. */
  ghost function Keep<T(!new)>(rs: seq<T>, f: T -> bool): (m: seq<T>)
    ensures forall r :: r in m <==> r in rs && f(r)
  {
    if rs == [] then []
    else Keep(rs[..|rs| - 1], f) + if f(rs[|rs| - 1]) then [rs[|rs| - 1]] else []
  }

  lemma KeepSnoc<T(!new)>(rs: seq<T>, r: T, f: T -> bool)
    ensures Keep(rs + [r], f) == Keep(rs, f) + if f(r) then [r] else []
  {
    assert (rs + [r])[..|rs|] == rs;
  }

  function Falls(now: nat, window: nat, binNs: nat, key: nat): Record -> bool
    requires binNs > 0
  {
    r => InWindow(r, now, window) && r.tsNs / binNs == key
  }

  function Inside(now: nat, window: nat): Record -> bool { r => InWindow(r, now, window) }

  /** The records of one bin, in the order they arrived. */
  ghost function Members(rs: seq<Record>, now: nat, window: nat, binNs: nat, key: nat): seq<Record>
    requires binNs > 0
  {
    Keep(rs, Falls(now, window, binNs, key))
  }

  ghost function Width(now: nat, binNs: nat, key: nat): nat
    requires binNs > 0
  {
    if key != now / binNs then binNs else if now > key * binNs then now - key * binNs else 1
  }

  ghost predicate IsBin(b: Bin, rs: seq<Record>, now: nat, window: nat, binNs: nat)
    requires binNs > 0
  {
    && b.records == Members(rs, now, window, binNs, b.key) && b.records != []
    && b.widthNs == Width(now, binNs, b.key)
    && b.isCurrent == (b.key == now / binNs)
  }

  /** What the plot is drawn from: the non-empty bins, by ascending time. */
  ghost predicate IsBinning(bins: seq<Bin>, rs: seq<Record>, now: nat, window: nat, binNs: nat)
    requires binNs > 0
  {
    && (forall i :: 0 <= i < |bins| ==> IsBin(bins[i], rs, now, window, binNs))
    && (forall i, j :: 0 <= i < j < |bins| ==> bins[i].key < bins[j].key)
    && (forall r :: r in rs && InWindow(r, now, window) ==>
          exists i :: 0 <= i < |bins| && bins[i].key == r.tsNs / binNs)
  }

  /** The buckets hold, by key, the members of every non-empty bin. */
  ghost predicate AreBuckets(buckets: map<nat, seq<Record>>, rs: seq<Record>, now: nat, window: nat, binNs: nat)
    requires binNs > 0
  {
    && (forall key :: key in buckets <==> Members(rs, now, window, binNs, key) != [])
    && (forall key :: key in buckets ==> buckets[key] == Members(rs, now, window, binNs, key))
  }

  /** One record goes to the end of its bucket, if it is in the window. */
  lemma BucketsGrow(before: map<nat, seq<Record>>, rs: seq<Record>, r: Record, now: nat, window: nat, binNs: nat)
    requires binNs > 0 && AreBuckets(before, rs, now, window, binNs)
    ensures var key := r.tsNs / binNs;
            var after := if InWindow(r, now, window)
                         then before[key := (if key in before then before[key] else []) + [r]] else before;
            AreBuckets(after, rs + [r], now, window, binNs)
  {
    forall key ensures Members(rs + [r], now, window, binNs, key) ==
                         Members(rs, now, window, binNs, key) +
                         if Falls(now, window, binNs, key)(r) then [r] else []
    {
      KeepSnoc(rs, r, Falls(now, window, binNs, key));
    }
  }

  /** Sort the records into buckets by absolute time. */
  method FillBuckets(rs: seq<Record>, now: nat, window: nat, binNs: nat) returns (buckets: map<nat, seq<Record>>)
    requires binNs > 0
    ensures AreBuckets(buckets, rs, now, window, binNs)
  {
    buckets := map[];
    for i := 0 to |rs|
      invariant AreBuckets(buckets, rs[..i], now, window, binNs)
    {
      var r := rs[i];
      BucketsGrow(buckets, rs[..i], r, now, window, binNs);
      assert rs[..i + 1] == rs[..i] + [r];
      if r.tsNs < Cutoff(now, window) || r.tsNs > now { continue; }
      var key := r.tsNs / binNs;
      buckets := buckets[key := (if key in buckets then buckets[key] else []) + [r]];
    }
    assert rs[..|rs|] == rs;
  }

  method MakeBin(records: seq<Record>, now: nat, binNs: nat, key: nat) returns (b: Bin)
    requires binNs > 0
    ensures b == Bin(key, records, Width(now, binNs, key), key == now / binNs)
  {
    var start := key * binNs;
    var current := key == now / binNs;
    b := Bin(key, records, if !current then binNs else if now > start then now - start else 1, current);
  }

  predicate HasKey(bins: seq<Bin>, key: nat) { exists i :: 0 <= i < |bins| && bins[i].key == key }

  /** The non-empty bins below a key, ascending. */
  ghost predicate BinsBelow(bins: seq<Bin>, rs: seq<Record>, now: nat, window: nat, binNs: nat, key: nat)
    requires binNs > 0
  {
    && (forall i :: 0 <= i < |bins| ==> IsBin(bins[i], rs, now, window, binNs) && bins[i].key < key)
    && (forall i, j :: 0 <= i < j < |bins| ==> bins[i].key < bins[j].key)
    && (forall k: nat :: k < key && Members(rs, now, window, binNs, k) != [] ==> HasKey(bins, k))
  }

  lemma OneMoreBin(bins: seq<Bin>, bin: Bin, rs: seq<Record>, now: nat, window: nat, binNs: nat, key: nat)
    requires binNs > 0 && BinsBelow(bins, rs, now, window, binNs, key)
    requires bin.key == key && IsBin(bin, rs, now, window, binNs)
    ensures BinsBelow(bins + [bin], rs, now, window, binNs, key + 1)
  {
    forall k: nat | k < key + 1 && Members(rs, now, window, binNs, k) != [] ensures HasKey(bins + [bin], k) {
      if k == key {
        assert (bins + [bin])[|bins|].key == key;
      } else {
        var i :| 0 <= i < |bins| && bins[i].key == k;
        assert (bins + [bin])[i].key == k;
      }
    }
  }

  lemma AllBins(bins: seq<Bin>, rs: seq<Record>, now: nat, window: nat, binNs: nat)
    requires binNs > 0 && BinsBelow(bins, rs, now, window, binNs, now / binNs + 1)
    ensures IsBinning(bins, rs, now, window, binNs)
  {
    EveryKeyIsVisited(rs, now, window, binNs);
    forall r | r in rs && InWindow(r, now, window)
      ensures exists i :: 0 <= i < |bins| && bins[i].key == r.tsNs / binNs
    {
      assert HasKey(bins, r.tsNs / binNs);
    }
  }

  /** bin_records; the buckets are visited by ascending key. */
  method BinRecords(rs: seq<Record>, now: nat, window: nat, binNs: nat) returns (bins: seq<Bin>)
    ensures binNs == 0 || now == 0 ==> bins == []
    ensures binNs > 0 && now > 0 ==> IsBinning(bins, rs, now, window, binNs)
  {
    bins := [];
    if binNs == 0 || rs == [] || now == 0 { return; }
    var buckets := FillBuckets(rs, now, window, binNs);
    for key := 0 to now / binNs + 1
      invariant BinsBelow(bins, rs, now, window, binNs, key)
    {
      if key in buckets {
        var bin := MakeBin(buckets[key], now, binNs, key);
        OneMoreBin(bins, bin, rs, now, window, binNs, key);
        bins := bins + [bin];
      }
    }
    AllBins(bins, rs, now, window, binNs);
  }

  lemma EveryKeyIsVisited(rs: seq<Record>, now: nat, window: nat, binNs: nat)
    requires binNs > 0
    ensures forall r :: r in rs && InWindow(r, now, window) ==>
              0 <= r.tsNs / binNs <= now / binNs && Members(rs, now, window, binNs, r.tsNs / binNs) != []
  {
    forall r | r in rs && InWindow(r, now, window)
      ensures 0 <= r.tsNs / binNs <= now / binNs && Members(rs, now, window, binNs, r.tsNs / binNs) != []
    {
      KeyGrows(r.tsNs, now, binNs);
      assert r in Members(rs, now, window, binNs, r.tsNs / binNs);
    }
  }

  lemma SmallProduct(x: int, n: nat)
    requires x * n < n
    ensures x <= 0
  {}

  lemma KeyGrows(a: nat, b: nat, binNs: nat)
    requires binNs > 0 && a <= b
    ensures a / binNs <= b / binNs
  {
    var qa, qb := a / binNs, b / binNs;
    assert (qa - qb) * binNs < binNs by {
      assert a == qa * binNs + a % binNs && b == qb * binNs + b % binNs;
      assert (qa - qb) * binNs == qa * binNs - qb * binNs;
    }
    SmallProduct(qa - qb, binNs);
  }

  // ----- The bins partition the window

  ghost function Windowed(rs: seq<Record>, now: nat, window: nat): seq<Record> {
    Keep(rs, Inside(now, window))
  }

  ghost function Contents(bins: seq<Bin>): seq<Record> {
    if bins == [] then [] else Contents(bins[..|bins| - 1]) + bins[|bins| - 1].records
  }

  lemma {:induction false} CountKept<T(!new)>(rs: seq<T>, f: T -> bool, x: T)
    ensures multiset(Keep(rs, f))[x] == if f(x) then multiset(rs)[x] else 0
  {
    if rs != [] {
      var n := |rs| - 1;
      CountKept(rs[..n], f, x);
      assert rs == rs[..n] + [rs[n]];
    }
  }

  lemma HasKeySnoc(bins: seq<Bin>, key: nat)
    requires bins != []
    ensures HasKey(bins, key) <==> HasKey(bins[..|bins| - 1], key) || bins[|bins| - 1].key == key
  {
    var n := |bins| - 1;
    if HasKey(bins[..n], key) {
      var i :| 0 <= i < n && bins[..n][i].key == key;
      assert bins[i].key == key;
    }
    if HasKey(bins, key) && bins[n].key != key {
      var i :| 0 <= i < |bins| && bins[i].key == key;
      assert bins[..n][i].key == key;
    }
  }

  lemma {:induction false} CountContents(bins: seq<Bin>, rs: seq<Record>, now: nat, window: nat, binNs: nat, x: Record)
    requires binNs > 0
    requires forall i :: 0 <= i < |bins| ==> IsBin(bins[i], rs, now, window, binNs)
    requires forall i, j :: 0 <= i < j < |bins| ==> bins[i].key < bins[j].key
    ensures multiset(Contents(bins))[x] ==
              if InWindow(x, now, window) && HasKey(bins, x.tsNs / binNs) then multiset(rs)[x] else 0
  {
    if bins != [] {
      var n := |bins| - 1;
      HasKeySnoc(bins, x.tsNs / binNs);
      CountContents(bins[..n], rs, now, window, binNs, x);
      CountKept(rs, Falls(now, window, binNs, bins[n].key), x);
    }
  }

  /** Every record of the window is in exactly one bin, as often as it was received. */
  lemma BinsPartitionTheWindow(bins: seq<Bin>, rs: seq<Record>, now: nat, window: nat, binNs: nat)
    requires binNs > 0 && IsBinning(bins, rs, now, window, binNs)
    ensures multiset(Contents(bins)) == multiset(Windowed(rs, now, window))
  {
    forall x: Record ensures multiset(Contents(bins))[x] == multiset(Windowed(rs, now, window))[x] {
      CountContents(bins, rs, now, window, binNs, x);
      CountKept(rs, Inside(now, window), x);
    }
  }

  // ----- Which bins keep their contents as time goes on

  lemma {:induction false} KeepConcat<T(!new)>(a: seq<T>, b: seq<T>, f: T -> bool)
    ensures Keep(a + b, f) == Keep(a, f) + Keep(b, f)
  {
    if b == [] {
      assert a + b == a;
    } else {
      var n := |b| - 1;
      assert a + b == (a + b[..n]) + [b[n]];
      KeepConcat(a, b[..n], f);
      KeepSnoc(a + b[..n], b[n], f);
    }
  }

  lemma {:induction false} KeepSame<T(!new)>(rs: seq<T>, f: T -> bool, g: T -> bool)
    requires forall r :: r in rs ==> f(r) == g(r)
    ensures Keep(rs, f) == Keep(rs, g)
  {
    if rs != [] { KeepSame(rs[..|rs| - 1], f, g); }
  }

  lemma SealedIsPast(ts: nat, now: nat, binNs: nat)
    requires binNs > 0 && ts / binNs < now / binNs
    ensures ts <= now
  {
    if now < ts { KeyGrows(now, ts, binNs); }
  }

  /** The only way a sealed bin loses records is at the left edge of the window. */
  lemma NoneCut(rs: seq<Record>, now: nat, later: nat, window: nat, binNs: nat, key: nat)
    requires binNs > 0 && now <= later && key < now / binNs
    requires forall r :: r in Members(rs, now, window, binNs, key) ==> Cutoff(later, window) <= r.tsNs
    ensures Members(rs, later, window, binNs, key) == Members(rs, now, window, binNs, key)
  {
    var f, g := Falls(now, window, binNs, key), Falls(later, window, binNs, key);
    forall r | r in rs ensures f(r) == g(r) {
      if r.tsNs / binNs == key {
        SealedIsPast(r.tsNs, now, binNs);
        if f(r) { assert r in Keep(rs, f); }
      }
    }
    KeepSame(rs, f, g);
  }

  lemma {:induction false} KeepFewer<T(!new)>(rs: seq<T>, f: T -> bool, g: T -> bool)
    requires forall r :: r in rs && g(r) ==> f(r)
    ensures |Keep(rs, g)| <= |Keep(rs, f)|
    ensures |Keep(rs, g)| == |Keep(rs, f)| ==> forall r :: r in Keep(rs, f) ==> g(r)
  {
    if rs != [] { KeepFewer(rs[..|rs| - 1], f, g); }
  }

  /** The left edge at that later time has passed none of the records. */
  ghost predicate NoneBehind(rs: seq<Record>, later: nat, window: nat) {
    forall r :: r in rs ==> Cutoff(later, window) <= r.tsNs
  }

  ghost predicate NoneLate(more: seq<Record>, later: nat, window: nat, binNs: nat, key: nat)
    requires binNs > 0
  {
    forall r :: r in more ==> !Falls(later, window, binNs, key)(r)
  }

  /** What the left edge takes from a sealed bin. */
  lemma CutIff(rs: seq<Record>, now: nat, later: nat, window: nat, binNs: nat, key: nat)
    requires binNs > 0 && now <= later && key < now / binNs
    ensures var was, stay := Members(rs, now, window, binNs, key), Members(rs, later, window, binNs, key);
            && |stay| <= |was| && (|stay| == |was| ==> stay == was)
            && (stay == was <==> NoneBehind(was, later, window))
  {
    var f, g := Falls(now, window, binNs, key), Falls(later, window, binNs, key);
    forall r | r in rs && g(r) ensures f(r) { SealedIsPast(r.tsNs, now, binNs); }
    KeepFewer(rs, f, g);
    var was := Members(rs, now, window, binNs, key);
    if NoneBehind(was, later, window) { NoneCut(rs, now, later, window, binNs, key); }
  }

  /** A sealed bin keeps its width.  When no late record falls into it, it keeps its records
      exactly when none of them was among those dropped from the head of the list and the
      window's left edge has passed none of them; when none of them was dropped, exactly when
      none was passed and none came late.  A late record goes unnoticed only in place of an
      equal one. */
  lemma SealedBinIff(rs: seq<Record>, dropped: nat, more: seq<Record>, now: nat, later: nat,
                     window: nat, binNs: nat, key: nat)
    requires binNs > 0 && now <= later && key < now / binNs && dropped <= |rs|
    ensures Width(later, binNs, key) == Width(now, binNs, key)
    ensures var was := Members(rs, now, window, binNs, key);
            var found := Members(rs[dropped..] + more, later, window, binNs, key);
            var noneDropped := Members(rs[..dropped], now, window, binNs, key) == [];
            var noneCut, noneLate := NoneBehind(was, later, window), NoneLate(more, later, window, binNs, key);
            && (noneLate ==> (found == was <==> noneDropped && noneCut))
            && (noneDropped ==> (found == was <==> noneCut && noneLate))
            && (found == was ==> forall r :: r in more && Falls(later, window, binNs, key)(r) ==> r in was)
  {
    var f := Falls(later, window, binNs, key);
    KeyGrows(now, later, binNs);
    var gone, kept := Members(rs[..dropped], now, window, binNs, key), Members(rs[dropped..], now, window, binNs, key);
    var stay, late := Members(rs[dropped..], later, window, binNs, key), Members(more, later, window, binNs, key);
    assert rs[..dropped] + rs[dropped..] == rs;
    KeepConcat(rs[..dropped], rs[dropped..], Falls(now, window, binNs, key));
    KeepConcat(rs[dropped..], more, f);
    CutIff(rs[dropped..], now, later, window, binNs, key);
    NothingLate(more, f);
    WhatChanges(gone, kept, stay, late, later, window);
  }

  /** What the bin held is gone + kept, what it holds is stay + late. */
  lemma WhatChanges(gone: seq<Record>, kept: seq<Record>, stay: seq<Record>, late: seq<Record>, later: nat, window: nat)
    requires |stay| <= |kept| && (|stay| == |kept| ==> stay == kept)
    requires stay == kept <==> NoneBehind(kept, later, window)
    requires forall r :: r in stay || r in late ==> Cutoff(later, window) <= r.tsNs
    ensures late == [] ==> (stay + late == gone + kept <==> gone == [] && NoneBehind(gone + kept, later, window))
    ensures gone == [] ==> (stay + late == gone + kept <==> NoneBehind(gone + kept, later, window) && late == [])
    ensures stay + late == gone + kept ==> forall r :: r in late ==> r in gone + kept
  {
    assert NoneBehind(gone + kept, later, window) <==>
             NoneBehind(gone, later, window) && NoneBehind(kept, later, window);
    if stay + late == gone + kept {
      assert |stay| + |late| == |gone| + |kept|;
      forall r | r in late ensures r in gone + kept { assert r in stay + late; }
      if gone == [] {
        forall r | r in kept ensures Cutoff(later, window) <= r.tsNs { assert r in stay + late; }
      }
    }
  }

  lemma NothingLate<T(!new)>(rs: seq<T>, f: T -> bool)
    ensures Keep(rs, f) == [] <==> forall r :: r in rs ==> !f(r)
  {
    if Keep(rs, f) != [] { assert Keep(rs, f)[0] in Keep(rs, f); }
  }

  lemma StartsBefore(ts: nat, binNs: nat)
    requires binNs > 0
    ensures ts / binNs * binNs <= ts
  {
    assert ts == ts / binNs * binNs + ts % binNs;
  }

  lemma KeepTwo<T(!new)>(a: T, b: T, f: T -> bool)
    ensures Keep([a, b], f) == (if f(a) then [a] else []) + if f(b) then [b] else []
  {
    assert [a, b][..1] == [a] && [a][..0] == [];
    assert Keep([a], f) == [] + if f(a) then [a] else [];
  }

  /** A sealed bin that the left edge has reached does change. */
  lemma CutBinChanges()
    ensures var a, b := Record(0, 1, 0), Record(400, 2, 0);
            Members([a, b], 1000, 1000, 500, 0) == [a, b] && Members([a, b], 1300, 1000, 500, 0) == [b]
  {
    var a, b := Record(0, 1, 0), Record(400, 2, 0);
    KeepTwo(a, b, Falls(1000, 1000, 500, 0));
    KeepTwo(a, b, Falls(1300, 1000, 500, 0));
  }

  // ----- The ring the records are kept in

  const RING_CAPACITY: nat := 4096

  ghost function Newest(rs: seq<Record>): seq<Record> {
    if |rs| <= RING_CAPACITY then rs else rs[|rs| - RING_CAPACITY..]
  }

  class SharedState {
    var ring: seq<Record>
    ghost var received: seq<Record>   // every record pushed so far

    ghost predicate Valid()
      reads this
    {
      ring == Newest(received)
    }

    constructor ()
      ensures Valid() && received == []
    {
      ring, received := [], [];
    }

    method Push(rec: Record)
      requires Valid()
      modifies this
      ensures Valid() && received == old(received) + [rec]
    {
      if |ring| == RING_CAPACITY { ring := ring[1..]; }
      ring := ring + [rec];
      received := received + [rec];
    }
  }

  /** How many records at the head of the ring make way for that many new ones. */
  function Displaced(size: nat, count: nat): (d: nat)
    ensures size <= RING_CAPACITY ==> d <= size
  {
    if size + count <= RING_CAPACITY then 0 else if count >= RING_CAPACITY then size else size + count - RING_CAPACITY
  }

  lemma RingLater(received: seq<Record>, more: seq<Record>)
    ensures var ring := Newest(received);
            Newest(received + more) == ring[Displaced(|ring|, |more|)..] + Newest(more)
  {}

  /** A sealed bin of the ring, while no late record comes: it changes exactly when one of its
      records is displaced from the ring or passed by the left edge. */
  lemma RingBinIff(received: seq<Record>, more: seq<Record>, now: nat, later: nat, window: nat, binNs: nat, key: nat)
    requires binNs > 0 && now <= later && key < now / binNs && NoneLate(more, later, window, binNs, key)
    ensures var ring := Newest(received);
            var was := Members(ring, now, window, binNs, key);
            Members(Newest(received + more), later, window, binNs, key) == was <==>
              && Members(ring[..Displaced(|ring|, |more|)], now, window, binNs, key) == []
              && NoneBehind(was, later, window)
  {
    var ring := Newest(received);
    RingLater(received, more);
    SealedBinIff(ring, Displaced(|ring|, |more|), Newest(more), now, later, window, binNs, key);
  }

  /** While the window covers the whole bin, only displacement from the ring is left to change
      it, and nothing is displaced while the ring has room. */
  lemma UncutBinIff(received: seq<Record>, more: seq<Record>, now: nat, later: nat, window: nat, binNs: nat, key: nat)
    requires binNs > 0 && now <= later && key < now / binNs && NoneLate(more, later, window, binNs, key)
    requires Cutoff(later, window) <= key * binNs
    ensures var ring := Newest(received);
            var was := Members(ring, now, window, binNs, key);
            var found := Members(Newest(received + more), later, window, binNs, key);
            && (found == was <==> Members(ring[..Displaced(|ring|, |more|)], now, window, binNs, key) == [])
            && (|ring| + |more| <= RING_CAPACITY ==> found == was)
  {
    var ring := Newest(received);
    forall r | r in Members(ring, now, window, binNs, key) ensures Cutoff(later, window) <= r.tsNs {
      StartsBefore(r.tsNs, binNs);
    }
    RingBinIff(received, more, now, later, window, binNs, key);
  }

  /** A full ring whose oldest record is in a sealed bin: the next record changes that bin,
      although the window covers it and nothing comes late. */
  lemma DisplacedBinChanges(ring: seq<Record>, next: Record, now: nat, window: nat, binNs: nat, key: nat)
    requires binNs > 0 && now <= next.tsNs && key < now / binNs && Cutoff(next.tsNs, window) <= key * binNs
    requires |ring| == RING_CAPACITY && Falls(now, window, binNs, key)(ring[0])
    ensures NoneBehind(Members(ring, now, window, binNs, key), next.tsNs, window)
    ensures NoneLate([next], next.tsNs, window, binNs, key)
    ensures Members(Newest(ring + [next]), next.tsNs, window, binNs, key) != Members(ring, now, window, binNs, key)
  {
    forall r | r in Members(ring, now, window, binNs, key) ensures Cutoff(next.tsNs, window) <= r.tsNs {
      StartsBefore(r.tsNs, binNs);
    }
    KeyGrows(now, next.tsNs, binNs);
    UncutBinIff(ring, [next], now, next.tsNs, window, binNs, key);
    assert ring[..1] == [ring[0]];
    NothingLate(ring[..1], Falls(now, window, binNs, key));
  }

  /** For example 4095 records at time 600 and one at 1000, then one at 1300. */
  lemma RingDropChanges()
    ensures var ring := seq(4095, i requires 0 <= i < 4095 => Record(600, i, 0)) + [Record(1000, 4095, 0)];
            Members(Newest(ring + [Record(1300, 4096, 0)]), 1300, 10_000, 500, 1) != Members(ring, 1000, 10_000, 500, 1)
  {
    var ring := seq(4095, i requires 0 <= i < 4095 => Record(600, i, 0)) + [Record(1000, 4095, 0)];
    DisplacedBinChanges(ring, Record(1300, 4096, 0), 1000, 10_000, 500, 1);
  }

  /** The divisor of the bin's rate: never 0, a full bin's width at most, and for the bin still
      being filled the time since it began. */
  lemma WidthIsUsable(now: nat, binNs: nat, key: nat)
    requires binNs > 0
    ensures 1 <= Width(now, binNs, key) <= binNs
    ensures key != now / binNs ==> Width(now, binNs, key) == binNs
    ensures key == now / binNs && now % binNs != 0 ==> key * binNs + Width(now, binNs, key) == now
  {
    assert now == now / binNs * binNs + now % binNs;
  }

  // ----- Frame gaps

  ghost predicate Increasing(rs: seq<Record>) {
    forall i :: 0 < i < |rs| ==> rs[i - 1].frame < rs[i].frame
  }

  /** For each jump of the frame counter: the frame it reached, and how many it skipped. */
  ghost function Gaps(rs: seq<Record>): seq<(nat, nat)> {
    if |rs| < 2 then []
    else
      var n := |rs| - 1;
      var a, b := rs[n - 1].frame, rs[n].frame;
      Gaps(rs[..n]) + if b > a + 1 then [(b, b - a - 1)] else []
  }

  ghost function Total(gaps: seq<(nat, nat)>): nat {
    if gaps == [] then 0 else Total(gaps[..|gaps| - 1]) + gaps[|gaps| - 1].1
  }

  /** frame_gaps */
  method FrameGaps(rs: seq<Record>) returns (gaps: seq<(nat, nat)>)
    ensures gaps == Gaps(rs)
  {
    gaps := [];
    if |rs| < 2 { return; }
    assert |rs[..1]| == 1;
    for i := 1 to |rs|
      invariant gaps == Gaps(rs[..i])
    {
      var a, b := rs[i - 1].frame, rs[i].frame;
      assert rs[..i + 1][..i] == rs[..i];
      if b > a + 1 { gaps := gaps + [(b, b - a - 1)]; }
    }
    assert rs[..|rs|] == rs;
  }

  lemma TotalSnoc(gaps: seq<(nat, nat)>, g: (nat, nat))
    ensures Total(gaps + [g]) == Total(gaps) + g.1
  {
    assert (gaps + [g])[..|gaps|] == gaps;
  }

  lemma IncreasingSnoc(rs: seq<Record>)
    requires |rs| > 1
    ensures Increasing(rs) <==> Increasing(rs[..|rs| - 1]) && rs[|rs| - 2].frame < rs[|rs| - 1].frame
  {
    var n := |rs| - 1;
    if Increasing(rs[..n]) && rs[n - 1].frame < rs[n].frame {
      forall i | 0 < i < |rs| ensures rs[i - 1].frame < rs[i].frame {
        if i < n { assert rs[..n][i - 1].frame < rs[..n][i].frame; }
      }
    }
  }

  /** The skipped frames add up to what the counter advanced beyond one per record, exactly
      when the counter rose at every record; otherwise they add up to more. */
  lemma {:induction false} GapsAddUpIff(rs: seq<Record>)
    requires rs != []
    ensures var extra := rs[|rs| - 1].frame - rs[0].frame - (|rs| - 1);
            Total(Gaps(rs)) >= extra && (Total(Gaps(rs)) == extra <==> Increasing(rs))
  {
    if |rs| > 1 {
      var n := |rs| - 1;
      var a, b := rs[n - 1].frame, rs[n].frame;
      GapsAddUpIff(rs[..n]);
      IncreasingSnoc(rs);
      if b > a + 1 { TotalSnoc(Gaps(rs[..n]), (b, b - a - 1)); } else { assert Gaps(rs) == Gaps(rs[..n]); }
    }
  }

  predicate InGap(gaps: seq<(nat, nat)>, m: nat) {
    exists i :: 0 <= i < |gaps| && gaps[i].0 - gaps[i].1 <= m < gaps[i].0
  }

  /** A frame number between the first and the last is missing exactly when a gap spans it. */
  lemma {:induction false} MissingIffInGap(rs: seq<Record>, m: nat)
    requires rs != [] && Increasing(rs) && rs[0].frame <= m <= rs[|rs| - 1].frame
    ensures (forall r :: r in rs ==> r.frame != m) <==> InGap(Gaps(rs), m)
  {
    Bracket(rs, m);
  }

  lemma InGapSnoc(gaps: seq<(nat, nat)>, g: (nat, nat), m: nat)
    ensures InGap(gaps + [g], m) <==> InGap(gaps, m) || g.0 - g.1 <= m < g.0
  {
    var more := gaps + [g];
    if InGap(gaps, m) {
      var i :| 0 <= i < |gaps| && gaps[i].0 - gaps[i].1 <= m < gaps[i].0;
      assert more[i] == gaps[i];
    }
    assert more[|gaps|] == g;
  }

  lemma HasFrameSnoc(rs: seq<Record>, m: nat)
    requires rs != []
    ensures (forall r :: r in rs ==> r.frame != m) <==>
              (forall r :: r in rs[..|rs| - 1] ==> r.frame != m) && rs[|rs| - 1].frame != m
  {
    assert rs == rs[..|rs| - 1] + [rs[|rs| - 1]];
  }

  lemma {:induction false} Bracket(rs: seq<Record>, m: nat)
    requires rs != [] && Increasing(rs) && rs[0].frame <= m
    ensures InGap(Gaps(rs), m) <==> m < rs[|rs| - 1].frame && forall r :: r in rs ==> r.frame != m
    ensures rs[|rs| - 1].frame < m ==> forall r :: r in rs ==> r.frame != m
  {
    HasFrameSnoc(rs, m);
    if |rs| > 1 {
      var n := |rs| - 1;
      var a, b := rs[n - 1].frame, rs[n].frame;
      IncreasingSnoc(rs);
      Bracket(rs[..n], m);
      if b > a + 1 { InGapSnoc(Gaps(rs[..n]), (b, b - a - 1), m); } else { assert Gaps(rs) == Gaps(rs[..n]); }
    }
  }
}
