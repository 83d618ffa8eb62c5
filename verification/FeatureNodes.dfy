/** The pNext chain as linked structs in memory, patched in place and relinked. */
module FeatureNodes {
  import opened Wrappers
  import opened FeatureChain

  class Node {
    const sType: SType
    var next: Node?
    var enabled: set<Feature>

    constructor (sType: SType, enabled: set<Feature>)
      ensures this.sType == sType && this.enabled == enabled && next == null
    {
      this.sType, this.enabled, next := sType, enabled, null;
    }
  }

  /** head is the first of nodes, each linked to the following one and the last to null. */
  ghost predicate Linked(head: Node?, nodes: seq<Node>)
    reads nodes
  {
    && head == NodeAt(nodes, 0)
    && (forall i :: 0 <= i < |nodes| ==> nodes[i].next == NodeAt(nodes, i + 1))
    && (forall i, j :: 0 <= i < j < |nodes| ==> nodes[i] != nodes[j])
  }

  ghost function NodeAt(nodes: seq<Node>, i: nat): Node? {
    if i < |nodes| then nodes[i] else null
  }

  /** The values in memory. */
  ghost function View(nodes: seq<Node>): (r: seq<Struct>)
    reads nodes`enabled
    ensures |r| == |nodes| && forall i :: 0 <= i < |r| ==> r[i] == Struct(nodes[i].sType, nodes[i].enabled)
  {
    if nodes == [] then [] else [Struct(nodes[0].sType, nodes[0].enabled)] + View(nodes[1..])
  }

  /** find_mut: follow the links to the first struct of a type. */
  method FindMut(head: Node?, ghost nodes: seq<Node>, t: SType) returns (p: Node?)
    requires Linked(head, nodes)
    ensures p == NodeAt(nodes, First(View(nodes), t))
    ensures p != null ==> p in nodes
  {
    var cur := head;
    ghost var i := 0;
    while cur != null
      invariant i <= |nodes| && cur == NodeAt(nodes, i)
      invariant forall j :: 0 <= j < i ==> nodes[j].sType != t
      decreases |nodes| - i
    {
      if cur.sType == t {
        FirstIs(View(nodes), t, i);
        return cur;
      }
      cur := cur.next;
      i := i + 1;
    }
    FirstIs(View(nodes), t, i);
    return null;
  }

  lemma FirstIs(chain: seq<Struct>, t: SType, i: nat)
    requires i <= |chain|
    requires forall j :: 0 <= j < i ==> chain[j].sType != t
    requires i < |chain| ==> chain[i].sType == t
    ensures First(chain, t) == i
  {}

  /** Where Ask flips a flag: past the end when it appends. */
  ghost function Target(chain: seq<Struct>, wide: Option<SType>, own: SType): (k: nat)
    ensures k <= |chain|
    ensures forall f :: Ask(Patch([], chain), f, wide, own) ==
              if k < |chain| then Patch([], Set(chain, k, f)) else Patch([Struct(own, {f})], chain)
  {
    var i := if wide.Some? then First(chain, wide.value) else |chain|;
    if i < |chain| then i else First(chain, own)
  }

  method FindEither(head: Node?, ghost nodes: seq<Node>, wide: Option<SType>, own: SType) returns (p: Node?)
    requires Linked(head, nodes)
    ensures p == NodeAt(nodes, Target(View(nodes), wide, own))
  {
    if wide.Some? {
      p := FindMut(head, nodes, wide.value);
      if p != null { return; }
    }
    p := FindMut(head, nodes, own);
  }

  /** (*p).flag = TRUE */
  method Flip(p: Node, ghost nodes: seq<Node>, ghost k: nat, f: Feature)
    requires k < |nodes| && p == nodes[k]
    requires Linked(NodeAt(nodes, 0), nodes)
    modifies p`enabled
    ensures View(nodes) == Set(old(View(nodes)), k, f)
  {
    p.enabled := p.enabled + {f};
    assert forall i :: 0 <= i < |nodes| && i != k ==> nodes[i].enabled == old(nodes[i].enabled);
  }

  /** One feature: flip a flag in the caller's chain, or hand out a struct to append. */
  method Enable(head: Node?, ghost nodes: seq<Node>, f: Feature, wide: Option<SType>, own: SType)
    returns (append: Node?)
    requires Linked(head, nodes)
    modifies nodes
    ensures Linked(head, nodes)
    ensures append != null ==> fresh(append) && append.sType == own && append.enabled == {f}
    ensures Ask(Patch([], old(View(nodes))), f, wide, own) ==
              Patch(if append == null then [] else [Struct(own, {f})], View(nodes))
  {
    ghost var k := Target(View(nodes), wide, own);
    var p := FindEither(head, nodes, wide, own);
    if p != null {
      Flip(p, nodes, k, f);
      append := null;
    } else {
      append := new Node(own, {f});
      assert View(nodes) == old(View(nodes));
    }
  }

  /** The structs patch_features leaves to be appended. */
  datatype FeatureAppends = FeatureAppends(sync2: Node?, hqr: Node?, presentId: Node?, presentWait: Node?)

  ghost function One(n: Node?): seq<Node> { if n == null then [] else [n] }

  /** They are linked in front of each other in this order, the last one foremost. */
  ghost function Appends(a: FeatureAppends): seq<Node> {
    One(a.presentWait) + (One(a.presentId) + (One(a.hqr) + One(a.sync2)))
  }

  /** What an append must look like for the feature it stands for. */
  ghost predicate IsAppend(n: Node?, own: SType, f: Feature)
    reads One(n)`enabled
  {
    n != null ==> One(n)[0].sType == own && One(n)[0].enabled == {f}
  }

  ghost predicate AreAppends(a: FeatureAppends)
    reads One(a.sync2)`enabled, One(a.hqr)`enabled, One(a.presentId)`enabled, One(a.presentWait)`enabled
  {
    && IsAppend(a.sync2, Sync2, Synchronization2)
    && IsAppend(a.hqr, HostReset, HostQueryReset)
    && IsAppend(a.presentId, PresentIdStruct, PresentIds)
    && IsAppend(a.presentWait, PresentWaitStruct, PresentWaits)
  }

  function Appended(n: Node?, own: SType, f: Feature): seq<Struct> {
    if n == null then [] else [Struct(own, {f})]
  }

  ghost function Structs(a: FeatureAppends): seq<Struct> {
    Appended(a.presentWait, PresentWaitStruct, PresentWaits)
    + (Appended(a.presentId, PresentIdStruct, PresentIds)
       + (Appended(a.hqr, HostReset, HostQueryReset) + Appended(a.sync2, Sync2, Synchronization2)))
  }

  /** Ask looks at and changes the caller's chain only; appends pile up in front. */
  lemma AskInFront(front: seq<Struct>, chain: seq<Struct>, f: Feature, wide: Option<SType>, own: SType)
    ensures Ask(Patch(front, chain), f, wide, own) ==
              var q := Ask(Patch([], chain), f, wide, own); Patch(q.appended + front, q.chain)
  {}

  /** One of the four steps of patch_features, if it applies: front is what was appended so far. */
  method EnableIf(on: bool, head: Node?, ghost nodes: seq<Node>, ghost front: seq<Struct>,
                  f: Feature, wide: Option<SType>, own: SType) returns (append: Node?)
    requires Linked(head, nodes)
    modifies nodes
    ensures Linked(head, nodes)
    ensures append != null ==> fresh(append) && append.sType == own && append.enabled == {f}
    ensures var p := Patch(front, old(View(nodes)));
            (if on then Ask(p, f, wide, own) else p) == Patch(Appended(append, own, f) + front, View(nodes))
  {
    append := null;
    if on {
      AskInFront(front, View(nodes), f, wide, own);
      append := Enable(head, nodes, f, wide, own);
    } else {
      assert [] + front == front;
    }
  }

  /** The first half of patch_features: synchronization2 and hostQueryReset. */
  method PatchCore(head: Node?, ghost nodes: seq<Node>, caps: Caps) returns (sync2: Node?, hqr: Node?)
    requires Linked(head, nodes)
    modifies nodes
    ensures Linked(head, nodes)
    ensures IsAppend(sync2, Sync2, Synchronization2) && (sync2 != null ==> fresh(sync2))
    ensures IsAppend(hqr, HostReset, HostQueryReset) && (hqr != null ==> fresh(hqr))
    ensures WithReset(old(View(nodes)), caps) ==
              Patch(Appended(hqr, HostReset, HostQueryReset) + Appended(sync2, Sync2, Synchronization2), View(nodes))
  {
    sync2 := EnableIf(true, head, nodes, [], Synchronization2, Wide(caps.v13, Vulkan13), Sync2);
    ghost var front := Appended(sync2, Sync2, Synchronization2);
    assert front + [] == front;
    hqr := EnableIf(true, head, nodes, front, HostQueryReset, Wide(caps.v12, Vulkan12), HostReset);
  }

  ghost function WithPresent(p: Patch, caps: Caps): Patch {
    var q := if caps.presentId then Ask(p, PresentIds, None, PresentIdStruct) else p;
    if caps.presentWait then Ask(q, PresentWaits, None, PresentWaitStruct) else q
  }

  lemma HalvesMeet(chain: seq<Struct>, caps: Caps)
    ensures Patched(chain, caps) == WithPresent(WithReset(chain, caps), caps)
  {}

  /** The second half: presentId and presentWait, where the device has them. */
  method PatchPresent(head: Node?, ghost nodes: seq<Node>, caps: Caps, ghost front: seq<Struct>)
    returns (presentId: Node?, presentWait: Node?)
    requires Linked(head, nodes)
    modifies nodes
    ensures Linked(head, nodes)
    ensures IsAppend(presentId, PresentIdStruct, PresentIds) && (presentId != null ==> fresh(presentId))
    ensures IsAppend(presentWait, PresentWaitStruct, PresentWaits) && (presentWait != null ==> fresh(presentWait))
    ensures WithPresent(Patch(front, old(View(nodes))), caps) ==
              Patch(Appended(presentWait, PresentWaitStruct, PresentWaits)
                    + (Appended(presentId, PresentIdStruct, PresentIds) + front), View(nodes))
  {
    presentId := EnableIf(caps.presentId, head, nodes, front, PresentIds, None, PresentIdStruct);
    ghost var more := Appended(presentId, PresentIdStruct, PresentIds) + front;
    presentWait := EnableIf(caps.presentWait, head, nodes, more, PresentWaits, None, PresentWaitStruct);
  }

  /** patch_features */
  method PatchFeatures(head: Node?, ghost nodes: seq<Node>, caps: Caps) returns (a: FeatureAppends)
    requires Linked(head, nodes)
    modifies nodes
    ensures Linked(head, nodes)
    ensures AreAppends(a)
    ensures (a.sync2 != null ==> fresh(a.sync2)) && (a.hqr != null ==> fresh(a.hqr))
    ensures (a.presentId != null ==> fresh(a.presentId)) && (a.presentWait != null ==> fresh(a.presentWait))
    ensures Patched(old(View(nodes)), caps) == Patch(Structs(a), View(nodes))
  {
    HalvesMeet(View(nodes), caps);
    var sync2, hqr := PatchCore(head, nodes, caps);
    ghost var front := Appended(hqr, HostReset, HostQueryReset) + Appended(sync2, Sync2, Synchronization2);
    var presentId, presentWait := PatchPresent(head, nodes, caps, front);
    a := FeatureAppends(sync2, hqr, presentId, presentWait);
  }

  /** One link of relink_into. */
  method LinkFront(b: Node?, head: Node?, ghost rest: seq<Node>) returns (newHead: Node?)
    requires Linked(head, rest) && (b != null ==> b !in rest)
    modifies One(b)`next
    ensures Linked(newHead, One(b) + rest)
  {
    if b == null {
      assert One(b) + rest == rest;
      return head;
    }
    assert One(b)[0] == b;
    b.next := head;
    newHead := b;
  }

  /** Two links of relink_into, b first. */
  method LinkTwo(b: Node?, c: Node?, head: Node?, ghost rest: seq<Node>) returns (newHead: Node?)
    requires Linked(head, rest)
    requires (b != null ==> b !in rest && b != c) && (c != null ==> c !in rest)
    modifies One(b)`next, One(c)`next
    ensures Linked(newHead, One(c) + (One(b) + rest))
  {
    newHead := LinkFront(b, head, rest);
    newHead := LinkFront(c, newHead, One(b) + rest);
  }

  ghost predicate Outside(n: Node?, nodes: seq<Node>) { n != null ==> n !in nodes }

  /** relink_into: the new head, from which the appends and then the caller's structs follow. */
  method RelinkInto(a: FeatureAppends, head: Node?, ghost nodes: seq<Node>) returns (newHead: Node?)
    requires Linked(head, nodes) && AreAppends(a)
    requires Outside(a.sync2, nodes) && Outside(a.hqr, nodes)
    requires Outside(a.presentId, nodes) && Outside(a.presentWait, nodes)
    modifies One(a.sync2)`next, One(a.hqr)`next, One(a.presentId)`next, One(a.presentWait)`next
    ensures Linked(newHead, Appends(a) + nodes)
  {
    newHead := LinkTwo(a.sync2, a.hqr, head, nodes);
    newHead := LinkTwo(a.presentId, a.presentWait, newHead, One(a.hqr) + (One(a.sync2) + nodes));
    Regroup(One(a.presentWait), One(a.presentId), One(a.hqr), One(a.sync2), nodes);
  }

  lemma Regroup(a: seq<Node>, b: seq<Node>, c: seq<Node>, d: seq<Node>, e: seq<Node>)
    ensures a + (b + (c + (d + e))) == (a + (b + (c + d))) + e
  {}

  lemma ViewConcat(a: seq<Node>, b: seq<Node>)
    ensures View(a + b) == View(a) + View(b)
  {}

  lemma ViewOne(n: Node?, own: SType, f: Feature)
    requires IsAppend(n, own, f)
    ensures View(One(n)) == Appended(n, own, f)
  {}

  lemma ViewOfAppends(a: FeatureAppends)
    requires AreAppends(a)
    ensures View(Appends(a)) == Structs(a)
  {
    ViewOne(a.sync2, Sync2, Synchronization2);
    ViewOne(a.hqr, HostReset, HostQueryReset);
    ViewOne(a.presentId, PresentIdStruct, PresentIds);
    ViewOne(a.presentWait, PresentWaitStruct, PresentWaits);
    ViewConcat(One(a.hqr), One(a.sync2));
    ViewConcat(One(a.presentId), One(a.hqr) + One(a.sync2));
    ViewConcat(One(a.presentWait), One(a.presentId) + (One(a.hqr) + One(a.sync2)));
  }

  /** relink_into seen as values: the structs to add come first, the caller's are untouched. */
  method Splice(a: FeatureAppends, head: Node?, ghost nodes: seq<Node>) returns (newHead: Node?)
    requires Linked(head, nodes) && AreAppends(a)
    requires Outside(a.sync2, nodes) && Outside(a.hqr, nodes)
    requires Outside(a.presentId, nodes) && Outside(a.presentWait, nodes)
    modifies One(a.sync2)`next, One(a.hqr)`next, One(a.presentId)`next, One(a.presentWait)`next
    ensures Linked(newHead, Appends(a) + nodes)
    ensures View(Appends(a) + nodes) == Structs(a) + old(View(nodes))
  {
    newHead := RelinkInto(a, head, nodes);
    ViewOfAppends(a);
    ViewConcat(Appends(a), nodes);
  }

  /** What create_device does to the chain it passes on: in memory, the caller's own structs
      follow the added ones, and their contents are the patched chain. */
  method RewriteChain(head: Node?, ghost nodes: seq<Node>, caps: Caps) returns (newHead: Node?, ghost added: seq<Node>)
    requires Linked(head, nodes)
    modifies nodes
    ensures Linked(newHead, added + nodes)
    ensures View(added + nodes) == Result(old(View(nodes)), caps)
  {
    var a := PatchFeatures(head, nodes, caps);
    newHead := Splice(a, head, nodes);
    added := Appends(a);
  }
}
