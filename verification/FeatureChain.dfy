/** Enabling features on a VkDeviceCreateInfo pNext chain: flip the flag in a struct the caller
    already chained, or splice a new struct in front.  First the chain as a list of values,
    then the linked nodes it is made of. */
module FeatureChain {
  import opened Wrappers

  datatype Feature = Synchronization2 | HostQueryReset | PresentIds | PresentWaits | Unrelated(n: nat)

  datatype SType =
    | Vulkan13 | Sync2 | Vulkan12 | HostReset | PresentIdStruct | PresentWaitStruct | OtherStruct(n: nat)

  /** One feature struct: its type and the flags that are set in it. */
  datatype Struct = Struct(sType: SType, enabled: set<Feature>)

  datatype Caps = Caps(v12: bool, v13: bool, presentId: bool, presentWait: bool)

  /** find: the first struct of a type. */
  ghost function First(chain: seq<Struct>, t: SType): (i: nat)
    ensures i <= |chain|
    ensures i < |chain| ==> chain[i].sType == t
    ensures forall j :: 0 <= j < i ==> chain[j].sType != t
  {
    if chain == [] || chain[0].sType == t then 0 else 1 + First(chain[1..], t)
  }

  /** The caller's chain and the structs to splice in, foremost first. */
  datatype Patch = Patch(appended: seq<Struct>, chain: seq<Struct>)

  ghost function Set(chain: seq<Struct>, i: nat, f: Feature): seq<Struct>
    requires i < |chain|
  {
    chain[i := chain[i].(enabled := chain[i].enabled + {f})]
  }

  /** Prefer the wide struct, if it may be used, then the feature's own struct, else append. */
  ghost function Ask(p: Patch, f: Feature, wide: Option<SType>, own: SType): Patch {
    var i := if wide.Some? then First(p.chain, wide.value) else |p.chain|;
    if i < |p.chain| then p.(chain := Set(p.chain, i, f))
    else
      var j := First(p.chain, own);
      if j < |p.chain| then p.(chain := Set(p.chain, j, f))
      else p.(appended := [Struct(own, {f})] + p.appended)
  }

  function Wide(allowed: bool, t: SType): Option<SType> { if allowed then Some(t) else None }

  ghost function WithSync2(chain: seq<Struct>, caps: Caps): Patch {
    Ask(Patch([], chain), Synchronization2, Wide(caps.v13, Vulkan13), Sync2)
  }

  ghost function WithReset(chain: seq<Struct>, caps: Caps): Patch {
    Ask(WithSync2(chain, caps), HostQueryReset, Wide(caps.v12, Vulkan12), HostReset)
  }

  ghost function WithIds(chain: seq<Struct>, caps: Caps): Patch {
    if caps.presentId then Ask(WithReset(chain, caps), PresentIds, None, PresentIdStruct) else WithReset(chain, caps)
  }

  /** patch_features */
  ghost function Patched(chain: seq<Struct>, caps: Caps): Patch {
    if caps.presentWait then Ask(WithIds(chain, caps), PresentWaits, None, PresentWaitStruct) else WithIds(chain, caps)
  }

  /** The chain given to the driver. */
  ghost function Result(chain: seq<Struct>, caps: Caps): seq<Struct> {
    Patched(chain, caps).appended + Patched(chain, caps).chain
  }

  // ----- What the driver sees

  /** The structs in which a flag may be flipped. */
  predicate Home(f: Feature, t: SType) {
    match f
    case Synchronization2 => t == Vulkan13 || t == Sync2
    case HostQueryReset => t == Vulkan12 || t == HostReset
    case PresentIds => t == PresentIdStruct
    case PresentWaits => t == PresentWaitStruct
    case Unrelated(_) => false
  }

  /** now is was with some flags of fs added, each in a struct that has it. */
  ghost predicate OnlyAdds(was: seq<Struct>, now: seq<Struct>, fs: iset<Feature>) {
    && |now| == |was|
    && forall i :: 0 <= i < |was| ==>
         && now[i].sType == was[i].sType
         && was[i].enabled <= now[i].enabled
         && forall f :: f in now[i].enabled - was[i].enabled ==> f in fs && Home(f, was[i].sType)
  }

  ghost predicate EnabledSomewhere(p: Patch, f: Feature) {
    exists s :: (s in p.appended || s in p.chain) && f in s.enabled && Home(f, s.sType)
  }

  ghost predicate Distinct(chain: seq<Struct>) {
    forall i, j :: 0 <= i < j < |chain| ==> chain[i].sType != chain[j].sType
  }

  lemma AskKeeps(p: Patch, f: Feature, wide: Option<SType>, own: SType)
    requires Home(f, own) && (wide.Some? ==> Home(f, wide.value))
    ensures var q := Ask(p, f, wide, own);
            && OnlyAdds(p.chain, q.chain, iset{f})
            && EnabledSomewhere(q, f)
            && (forall g :: EnabledSomewhere(p, g) ==> EnabledSomewhere(q, g))
  {
    var q := Ask(p, f, wide, own);
    var i := if wide.Some? then First(p.chain, wide.value) else |p.chain|;
    var j := First(p.chain, own);
    var k := if i < |p.chain| then i else j;
    if k < |p.chain| { assert q.chain[k] in q.chain; } else { assert q.appended[0] in q.appended; }
    forall g | EnabledSomewhere(p, g) ensures EnabledSomewhere(q, g) {
      var s :| (s in p.appended || s in p.chain) && g in s.enabled && Home(g, s.sType);
      if s in p.appended {
        assert s in q.appended;
      } else {
        var n :| 0 <= n < |p.chain| && p.chain[n] == s;
        assert q.chain[n] in q.chain && g in q.chain[n].enabled;
      }
    }
  }

  lemma AddsCompose(a: seq<Struct>, b: seq<Struct>, c: seq<Struct>, fs: iset<Feature>, gs: iset<Feature>)
    requires OnlyAdds(a, b, fs) && OnlyAdds(b, c, gs)
    ensures OnlyAdds(a, c, fs + gs)
  {
    forall i, f | 0 <= i < |a| && f in c[i].enabled - a[i].enabled
      ensures f in fs + gs && Home(f, a[i].sType)
    {
      assert f in c[i].enabled - b[i].enabled || f in b[i].enabled - a[i].enabled;
    }
  }

  /** So far the features fs have been asked for, starting from chain. */
  ghost predicate Serves(chain: seq<Struct>, p: Patch, fs: iset<Feature>) {
    OnlyAdds(chain, p.chain, fs) && forall f :: f in fs ==> EnabledSomewhere(p, f)
  }

  lemma AskServes(chain: seq<Struct>, p: Patch, fs: iset<Feature>, f: Feature, wide: Option<SType>, own: SType)
    requires Serves(chain, p, fs)
    requires Home(f, own) && (wide.Some? ==> Home(f, wide.value))
    ensures Serves(chain, Ask(p, f, wide, own), fs + iset{f})
  {
    AskKeeps(p, f, wide, own);
    AddsCompose(chain, p.chain, Ask(p, f, wide, own).chain, fs, iset{f});
  }

  lemma ResetServes(chain: seq<Struct>, caps: Caps)
    ensures Serves(chain, WithReset(chain, caps), iset{Synchronization2, HostQueryReset})
  {
    AskServes(chain, Patch([], chain), iset{}, Synchronization2, Wide(caps.v13, Vulkan13), Sync2);
    AskServes(chain, WithSync2(chain, caps), iset{} + iset{Synchronization2},
              HostQueryReset, Wide(caps.v12, Vulkan12), HostReset);
    assert iset{} + iset{Synchronization2} + iset{HostQueryReset} == iset{Synchronization2, HostQueryReset};
  }

  ghost function Requested(caps: Caps): iset<Feature> {
    iset{Synchronization2, HostQueryReset}
    + (if caps.presentId then iset{PresentIds} else iset{})
    + (if caps.presentWait then iset{PresentWaits} else iset{})
  }

  /** The caller's structs are all still there, in order, behind the new ones, with nothing
      changed but requested flags, and every requested feature is enabled in some struct. */
  lemma PatchEnablesAndPreserves(chain: seq<Struct>, caps: Caps)
    ensures Serves(chain, Patched(chain, caps), Requested(caps))
  {
    var fs := iset{Synchronization2, HostQueryReset};
    ResetServes(chain, caps);
    var ids := fs + if caps.presentId then iset{PresentIds} else iset{};
    assert Serves(chain, WithIds(chain, caps), ids) by {
      if caps.presentId { AskServes(chain, WithReset(chain, caps), fs, PresentIds, None, PresentIdStruct); }
      else { assert ids == fs; }
    }
    if caps.presentWait { AskServes(chain, WithIds(chain, caps), ids, PresentWaits, None, PresentWaitStruct); }
    else { assert Requested(caps) == ids; }
  }

  // ----- Valid usage of the resulting chain

  lemma AskDistinct(p: Patch, f: Feature, wide: Option<SType>, own: SType)
    requires Distinct(p.appended + p.chain) && forall s :: s in p.appended ==> s.sType != own
    ensures var q := Ask(p, f, wide, own);
            && Distinct(q.appended + q.chain)
            && (forall s :: s in q.appended ==> s.sType == own || s in p.appended)
  {
    var q := Ask(p, f, wide, own);
    var was, now := p.appended + p.chain, q.appended + q.chain;
    if q.appended == p.appended {
      assert forall i :: 0 <= i < |now| ==> now[i].sType == was[i].sType;
    } else {
      assert now == [Struct(own, {f})] + was;
      forall i | 0 <= i < |was| ensures was[i].sType != own {
        if i < |p.appended| { assert was[i] in p.appended; } else { assert was[i] == p.chain[i - |p.appended|]; }
      }
    }
  }

  ghost predicate AppendedAre(p: Patch, ts: set<SType>) {
    Distinct(p.appended + p.chain) && forall s :: s in p.appended ==> s.sType in ts
  }

  lemma AskAppended(p: Patch, ts: set<SType>, f: Feature, wide: Option<SType>, own: SType)
    requires AppendedAre(p, ts) && own !in ts
    ensures AppendedAre(Ask(p, f, wide, own), ts + {own})
  {
    AskDistinct(p, f, wide, own);
  }

  lemma ResetAppended(chain: seq<Struct>, caps: Caps)
    requires Distinct(chain)
    ensures AppendedAre(WithReset(chain, caps), {Sync2, HostReset})
  {
    assert [] + chain == chain;
    AskAppended(Patch([], chain), {}, Synchronization2, Wide(caps.v13, Vulkan13), Sync2);
    AskAppended(WithSync2(chain, caps), {} + {Sync2}, HostQueryReset, Wide(caps.v12, Vulkan12), HostReset);
  }

  /** No struct type occurs twice if none did before (section 3.7, Valid Usage, of the Vulkan
      1.3 specification). */
  lemma TypesStayDistinct(chain: seq<Struct>, caps: Caps)
    requires Distinct(chain)
    ensures Distinct(Result(chain, caps))
  {
    var ts := {Sync2, HostReset};
    ResetAppended(chain, caps);
    if caps.presentId {
      AskAppended(WithReset(chain, caps), ts, PresentIds, None, PresentIdStruct);
      ts := ts + {PresentIdStruct};
    }
    if caps.presentWait { AskAppended(WithIds(chain, caps), ts, PresentWaits, None, PresentWaitStruct); }
  }

  ghost predicate TypeIn(chain: seq<Struct>, t: SType) { exists s :: s in chain && s.sType == t }

  /** A combined struct and the struct it absorbed must not be chained together. */
  ghost predicate NoOverlap(chain: seq<Struct>) {
    !(TypeIn(chain, Vulkan13) && TypeIn(chain, Sync2)) && !(TypeIn(chain, Vulkan12) && TypeIn(chain, HostReset))
  }

  lemma AskTypes(p: Patch, f: Feature, wide: Option<SType>, own: SType, t: SType)
    ensures var q := Ask(p, f, wide, own);
            TypeIn(q.appended + q.chain, t) <==>
              TypeIn(p.appended + p.chain, t) ||
              (t == own && !(wide.Some? && TypeIn(p.chain, wide.value)))
    ensures TypeIn(Ask(p, f, wide, own).chain, t) <==> TypeIn(p.chain, t)
  {
    var q := Ask(p, f, wide, own);
    SameTypes(p.chain, q.chain, t);
    ConcatTypes(p.appended, p.chain, t);
    ConcatTypes(q.appended, q.chain, t);
    AskAppends(p, f, wide, own);
    if q.appended != p.appended { ConcatTypes([Struct(own, {f})], p.appended, t); }
  }

  /** Something is appended exactly when neither struct is in the caller's chain. */
  lemma AskAppends(p: Patch, f: Feature, wide: Option<SType>, own: SType)
    ensures var q := Ask(p, f, wide, own);
            q.appended == if TypeIn(p.chain, own) || (wide.Some? && TypeIn(p.chain, wide.value))
                          then p.appended else [Struct(own, {f})] + p.appended
    ensures forall t :: TypeIn([Struct(own, {f})], t) <==> t == own
  {
    FirstIff(p.chain, own);
    if wide.Some? { FirstIff(p.chain, wide.value); }
    assert Struct(own, {f}) in [Struct(own, {f})];
  }

  lemma FirstIff(chain: seq<Struct>, t: SType)
    ensures First(chain, t) < |chain| <==> TypeIn(chain, t)
  {
    var i := First(chain, t);
    if i < |chain| { assert chain[i] in chain; }
  }

  lemma ConcatTypes(a: seq<Struct>, b: seq<Struct>, t: SType)
    ensures TypeIn(a + b, t) <==> TypeIn(a, t) || TypeIn(b, t)
  {
    assert forall s :: s in a + b <==> s in a || s in b;
  }

  lemma SameTypes(a: seq<Struct>, b: seq<Struct>, t: SType)
    requires |a| == |b| && forall i :: 0 <= i < |a| ==> a[i].sType == b[i].sType
    ensures TypeIn(a, t) <==> TypeIn(b, t)
  {
    if s :| s in a && s.sType == t { var i :| 0 <= i < |a| && a[i] == s; assert b[i] in b; }
    if s :| s in b && s.sType == t { var i :| 0 <= i < |b| && b[i] == s; assert a[i] in a; }
  }

  lemma ResultTypes(chain: seq<Struct>, caps: Caps, t: SType)
    requires t != PresentIdStruct && t != PresentWaitStruct
    ensures TypeIn(Result(chain, caps), t) <==>
              || TypeIn(chain, t)
              || (t == Sync2 && !(caps.v13 && TypeIn(chain, Vulkan13)))
              || (t == HostReset && !(caps.v12 && TypeIn(chain, Vulkan12)))
  {
    var start := Patch([], chain);
    assert [] + chain == chain;
    AskTypes(start, Synchronization2, Wide(caps.v13, Vulkan13), Sync2, t);
    AskTypes(start, Synchronization2, Wide(caps.v13, Vulkan13), Sync2, Vulkan12);
    AskTypes(WithSync2(chain, caps), HostQueryReset, Wide(caps.v12, Vulkan12), HostReset, t);
    if caps.presentId { AskTypes(WithReset(chain, caps), PresentIds, None, PresentIdStruct, t); }
    if caps.presentWait { AskTypes(WithIds(chain, caps), PresentWaits, None, PresentWaitStruct, t); }
  }

  /** A chain without overlaps keeps that property exactly when no combined struct is chained
      on an instance too old for the layer to use it. */
  lemma OverlapIff(chain: seq<Struct>, caps: Caps)
    requires NoOverlap(chain)
    ensures NoOverlap(Result(chain, caps)) <==>
              (TypeIn(chain, Vulkan13) ==> caps.v13) && (TypeIn(chain, Vulkan12) ==> caps.v12)
  {
    ResultTypes(chain, caps, Vulkan13);
    ResultTypes(chain, caps, Sync2);
    ResultTypes(chain, caps, Vulkan12);
    ResultTypes(chain, caps, HostReset);
  }

  /** The failing case: the caller chained the 1.3 struct on an instance below 1.3, and the layer
      adds the struct it absorbed. */
  lemma OverlapOnOldInstance(caps: Caps)
    requires !caps.v13
    ensures var chain := [Struct(Vulkan13, {})];
            NoOverlap(chain) && !NoOverlap(Result(chain, caps))
  {
    var chain := [Struct(Vulkan13, {})];
    assert chain[0] in chain;
    assert forall s :: s in chain ==> s == chain[0];
    OverlapIff(chain, caps);
  }

  // ----- Which structs are used

  /** One flag set in the first struct of a type, everything else as it was. */
  ghost predicate SetsFirst(was: seq<Struct>, now: seq<Struct>, t: SType, f: Feature) {
    && |now| == |was|
    && forall i :: 0 <= i < |was| ==>
         now[i] == if was[i].sType == t && (forall j :: 0 <= j < i ==> was[j].sType != t)
                   then Struct(t, was[i].enabled + {f}) else was[i]
  }

  /** The combined struct is preferred where it may be used, then the feature's own; only without
      either is a struct added in front, with that flag and no other. */
  lemma WhatAskDoes(p: Patch, f: Feature, wide: Option<SType>, own: SType)
    ensures var q := Ask(p, f, wide, own);
            if wide.Some? && TypeIn(p.chain, wide.value) then
              q.appended == p.appended && SetsFirst(p.chain, q.chain, wide.value, f)
            else if TypeIn(p.chain, own) then
              q.appended == p.appended && SetsFirst(p.chain, q.chain, own, f)
            else
              q.appended == [Struct(own, {f})] + p.appended && q.chain == p.chain
  {
    FirstIff(p.chain, own);
    if wide.Some? { FirstIff(p.chain, wide.value); }
  }

  /** Every added struct enables one of the features and nothing else. */
  ghost predicate AddedFor(p: Patch, fs: iset<Feature>) {
    forall s :: s in p.appended ==> exists f :: f in fs && s.enabled == {f} && Home(f, s.sType)
  }

  lemma AskAddsFor(p: Patch, fs: iset<Feature>, f: Feature, wide: Option<SType>, own: SType)
    requires AddedFor(p, fs) && Home(f, own)
    ensures AddedFor(Ask(p, f, wide, own), fs + iset{f})
  {
    WhatAskDoes(p, f, wide, own);
  }

  lemma AddedForOneFeature(chain: seq<Struct>, caps: Caps)
    ensures AddedFor(Patched(chain, caps), Requested(caps))
  {
    var fs := iset{} + iset{Synchronization2};
    AskAddsFor(Patch([], chain), iset{}, Synchronization2, Wide(caps.v13, Vulkan13), Sync2);
    AskAddsFor(WithSync2(chain, caps), fs, HostQueryReset, Wide(caps.v12, Vulkan12), HostReset);
    fs := fs + iset{HostQueryReset};
    if caps.presentId {
      AskAddsFor(WithReset(chain, caps), fs, PresentIds, None, PresentIdStruct);
      fs := fs + iset{PresentIds};
    }
    if caps.presentWait {
      AskAddsFor(WithIds(chain, caps), fs, PresentWaits, None, PresentWaitStruct);
      fs := fs + iset{PresentWaits};
    }
    assert fs == Requested(caps);
  }
}
