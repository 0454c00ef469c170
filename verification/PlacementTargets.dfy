/**
 On which configuration a node ends, said in terms of names, VM sets and selectors alone
 (pkg/provider/azure_loadbalancer.go).
 */
module PlacementTargets {
  import opened Text
  import opened Placement
  import opened PlacementSafety

  // ---------- Names of load balancers ----------

  predicate EndsInternal(name: string) {
    |name| >= 9 && EqualFold(name[|name| - 9..], "-internal")
  }

  /** A load balancer of a configuration has its name, with or without "-internal", which is never part of it. */
  predicate Called(lb: string, name: string) {
    EqualFold(lb, name + "-internal") || (EqualFold(lb, name) && !EndsInternal(name))
  }

  lemma LowerFacts(a: string, b: string, k: nat)
    requires k <= |a|
    ensures Lower(Lower(a)) == Lower(a)
    ensures Lower(a + b) == Lower(a) + Lower(b)
    ensures Lower(a[..k]) == Lower(a)[..k] && Lower(a[k..]) == Lower(a)[k..]
  {
  }

  lemma NamesExactly(lb: string, cfg: SlbConfig)
    ensures Names(lb, cfg) <==> Called(lb, cfg.name)
  {
    var l, name := Lower(lb), Lower(cfg.name);
    assert |l| == |lb| && |name| == |cfg.name|;
    LowerFacts(lb, "", 0);
    LowerFacts(cfg.name, "-internal", if |cfg.name| >= 9 then |cfg.name| - 9 else 0);
    assert Lower("-internal") == "-internal";
    if |l| >= 9 && l[|l| - 9..] == "-internal" {
      LowerFacts(l, "", |l| - 9);
      assert l == l[..|l| - 9] + "-internal";
      assert Lower(Trim(lb)) == l[..|l| - 9];
      assert l == name + "-internal" <==> l[..|l| - 9] == name;
    } else {
      assert Lower(Trim(lb)) == l;
      assert (name + "-internal")[|name|..] == "-internal";
    }
  }

  /** The first configuration that the load balancer belongs to. */
  predicate FirstCalled(cfgs: seq<SlbConfig>, lb: string, i: nat) {
    i < |cfgs| && Called(lb, cfgs[i].name) && forall k :: 0 <= k < i ==> !Called(lb, cfgs[k].name)
  }

  /** The load balancer of a configuration exists, or is the one being reconciled. */
  predicate HasLB(call: Call, name: string) {
    (exists lb :: lb in call.lbs && Called(lb, name)) || Called(call.lbName, name)
  }

  lemma AvailableExactly(call: Call, cfg: SlbConfig)
    ensures Available(call, cfg) <==> HasLB(call, cfg.name)
  {
    forall lb
      ensures Names(lb, cfg) <==> Called(lb, cfg.name)
    {
      NamesExactly(lb, cfg);
    }
  }

  // ---------- Which configurations take a node ----------

  /** The configuration has the node's VM set as its primary one, and its load balancer exists. */
  predicate TakesVMSet(call: Call, cfg: SlbConfig, vmSet: string) {
    EqualFold(cfg.primaryVMSet, vmSet) && HasLB(call, cfg.name)
  }

  predicate FirstForVMSet(cfgs: seq<SlbConfig>, call: Call, vmSet: string, i: nat) {
    i < |cfgs| && TakesVMSet(call, cfgs[i], vmSet) && forall k :: 0 <= k < i ==> !TakesVMSet(call, cfgs[k], vmSet)
  }

  predicate Matches(call: Call, cfg: SlbConfig, node: Node) {
    cfg.selector.Selects? && cfg.selector.matches(node.labels) && HasLB(call, cfg.name)
  }

  /** A configuration for a node by its labels: a matching one, or one without selector if none matches. */
  predicate ForLabels(cfgs: seq<SlbConfig>, call: Call, node: Node, i: nat) {
    && i < |cfgs|
    && (Matches(call, cfgs[i], node) ||
        (&& cfgs[i].selector.NoSelector? && HasLB(call, cfgs[i].name)
         && forall k :: 0 <= k < |cfgs| ==> !Matches(call, cfgs[k], node)))
  }

  lemma {:induction false} PrimaryIsFirst(cfgs: seq<SlbConfig>, call: Call, vmSet: string, from: nat)
    ensures var r := PrimaryOf(cfgs, call, vmSet, from);
            && (r.Some? ==> from <= r.value < |cfgs| && TakesVMSet(call, cfgs[r.value], vmSet))
            && (forall k :: from <= k < |cfgs| && (r.None? || k < r.value) ==> !TakesVMSet(call, cfgs[k], vmSet))
    decreases |cfgs| - from
  {
    if from < |cfgs| {
      AvailableExactly(call, cfgs[from]);
      PrimaryIsFirst(cfgs, call, vmSet, from + 1);
    }
  }

  lemma EligibleExactly(cfgs: seq<SlbConfig>, call: Call, node: Node, i: nat)
    ensures i in Eligible(cfgs, call, node) <==> ForLabels(cfgs, call, node, i)
  {
    PickIndices(cfgs, MatchTest(call, node), |cfgs|);
    PickIndices(cfgs, PlainTest(call), |cfgs|);
    forall k | 0 <= k < |cfgs|
      ensures Available(call, cfgs[k]) <==> HasLB(call, cfgs[k].name)
    {
      AvailableExactly(call, cfgs[k]);
    }
    var m := Pick(cfgs, MatchTest(call, node), |cfgs|);
    assert forall k: nat :: k in m <==> k < |cfgs| && Matches(call, cfgs[k], node);
    if m != [] {
      assert m[0] in m;
    }
  }

  // ---------- The first pass ----------

  lemma SameExactly(a: Active, b: Active, n: string, i: nat)
    requires ExactlyOn(a, n, i) && Same(a, b, n)
    ensures ExactlyOn(b, n, i)
  {
  }

  lemma StepPlaces(cfgs: seq<SlbConfig>, call: Call, idx: Where, q: Place, node: Node)
    requires |q.active| == |cfgs| && AtMostOne(q.active) && Located(q.active, idx, node.name) && node.vmSet.Some?
    ensures var r := PrimaryStep(cfgs, call, idx, q, node, node.vmSet.value);
            && |r.active| == |q.active|
            && (forall m :: m != node.name ==> Same(q.active, r.active, m))
            && (HasPrimary(cfgs, call, node) ==>
                  ExactlyOn(r.active, node.name, PrimaryOf(cfgs, call, node.vmSet.value, 0).value))
  {
    PrimaryIndex(cfgs, call, node.vmSet.value, 0);
    if HasPrimary(cfgs, call, node) {
      var i := PrimaryOf(cfgs, call, node.vmSet.value, 0).value;
      if node.name !in Members(q.active[i]) {
        MovedEdit(q.active, idx, node.name, i);
      }
    }
  }

  /** Every node of the list that had no mark is on its primary configuration if it has one. */
  ghost predicate OnPrimary(cfgs: seq<SlbConfig>, call: Call, marks: set<string>, a: Active, nodes: seq<Node>) {
    forall node :: node in nodes && node.name !in marks && HasPrimary(cfgs, call, node) ==>
      ExactlyOn(a, node.name, PrimaryOf(cfgs, call, node.vmSet.value, 0).value)
  }

  lemma {:induction false} PrimaryPassPlaces(cfgs: seq<SlbConfig>, call: Call, idx: Where, p: Place, nodes: seq<Node>)
    requires |p.active| == |cfgs| && AtMostOne(p.active) && DistinctNames(nodes)
    requires forall n :: Located(p.active, idx, n)
    requires !PrimaryPass(cfgs, call, idx, p, nodes).1
    ensures OnPrimary(cfgs, call, p.marks, PrimaryPass(cfgs, call, idx, p, nodes).0.active, nodes)
    ensures forall node :: node in nodes && node.name !in p.marks ==> node.vmSet.Some?
  {
    if nodes != [] {
      var n := |nodes| - 1;
      var before, last := nodes[..n], nodes[n];
      assert nodes == before + [last];
      PrimaryPassPlaces(cfgs, call, idx, p, before);
      PrimaryPassKeeps(cfgs, call, idx, p, before);
      PrimaryPassMarks(cfgs, call, idx, p, before);
      var q := PrimaryPass(cfgs, call, idx, p, before).0;
      assert last.name !in NodeNames(before);
      if last.name !in q.marks {
        assert Same(p.active, q.active, last.name) && Located(p.active, idx, last.name);
        StepPlaces(cfgs, call, idx, q, last);
        var r := PrimaryStep(cfgs, call, idx, q, last, last.vmSet.value);
        forall node | node in before && node.name !in p.marks && HasPrimary(cfgs, call, node)
          ensures ExactlyOn(r.active, node.name, PrimaryOf(cfgs, call, node.vmSet.value, 0).value)
        {
          assert node.name in NodeNames(before) && node.name != last.name;
          SameExactly(q.active, r.active, node.name, PrimaryOf(cfgs, call, node.vmSet.value, 0).value);
        }
      }
    }
  }

  /** Every unmarked node is on the first configuration for its VM set, if there is one. */
  ghost predicate ByVMSet(cfgs: seq<SlbConfig>, call: Call, marks: set<string>, a: Active, nodes: seq<Node>) {
    forall node, i: nat ::
      node in nodes && node.name !in marks && node.vmSet.Some? && FirstForVMSet(cfgs, call, node.vmSet.value, i) ==>
        ExactlyOn(a, node.name, i)
  }

  lemma FirstPassPlaces(cfgs: seq<SlbConfig>, call: Call, idx: Where, p: Place, nodes: seq<Node>)
    requires |p.active| == |cfgs| && AtMostOne(p.active) && DistinctNames(nodes)
    requires forall n :: Located(p.active, idx, n)
    requires !PrimaryPass(cfgs, call, idx, p, nodes).1
    ensures ByVMSet(cfgs, call, p.marks, PrimaryPass(cfgs, call, idx, p, nodes).0.active, nodes)
  {
    PrimaryPassPlaces(cfgs, call, idx, p, nodes);
    var a := PrimaryPass(cfgs, call, idx, p, nodes).0.active;
    forall node, i: nat |
        node in nodes && node.name !in p.marks && node.vmSet.Some? && FirstForVMSet(cfgs, call, node.vmSet.value, i)
      ensures ExactlyOn(a, node.name, i)
    {
      PrimaryIsFirst(cfgs, call, node.vmSet.value, 0);
      assert PrimaryOf(cfgs, call, node.vmSet.value, 0) == Some(i);
    }
  }

  // ---------- A whole call ----------

  /**
   After a successful call a listed node without an earlier mark is on the first configuration for its VM set,
   if there is one, and is marked.
   */
  lemma PlacedByVMSet(cfgs: seq<SlbConfig>, call: Call, p: Place, node: Node, i: nat)
    requires Ready(cfgs, call, p) && node in call.nodes && !Arrange(cfgs, call, p).1 && node.name !in p.marks
    requires node.vmSet.Some? && FirstForVMSet(cfgs, call, node.vmSet.value, i)
    ensures var q := Arrange(cfgs, call, p).0; ExactlyOn(q.active, node.name, i) && node.name in q.marks
  {
    Both(cfgs, call, p);
    var p0 := Pruned(call, p);
    var idx := IndexOf(p0);
    var q := PrimaryPass(cfgs, call, idx, p0, call.nodes).0;
    PrimaryIsFirst(cfgs, call, node.vmSet.value, 0);
    assert PrimaryOf(cfgs, call, node.vmSet.value, 0) == Some(i);
    PrimaryPassPlaces(cfgs, call, idx, p0, call.nodes);
    PrimaryPassMarks(cfgs, call, idx, p0, call.nodes);
    SameExactly(q.active, Arrange(cfgs, call, p).0.active, node.name, i);
  }

  /**
   If there is none, it gets no mark, and it is on a configuration for its labels if there is one, and nowhere
   otherwise.
   */
  lemma PlacedByLabels(cfgs: seq<SlbConfig>, call: Call, p: Place, node: Node)
    requires Ready(cfgs, call, p) && node in call.nodes && !Arrange(cfgs, call, p).1 && node.name !in p.marks
    requires node.vmSet.Some? ==> forall k :: 0 <= k < |cfgs| ==> !TakesVMSet(call, cfgs[k], node.vmSet.value)
    ensures var q := Arrange(cfgs, call, p).0;
            && node.vmSet.Some? && node.name !in q.marks
            && (forall i: nat :: On(q.active, node.name, i) ==> ForLabels(cfgs, call, node, i))
            && ((exists i: nat :: ForLabels(cfgs, call, node, i)) ==>
                  exists i: nat :: ExactlyOn(q.active, node.name, i))
  {
    Both(cfgs, call, p);
    var p0, q := Pruned(call, p), Arrange(cfgs, call, p).0;
    var idx := IndexOf(p0);
    PrimaryPassPlaces(cfgs, call, idx, p0, call.nodes);
    PrimaryPassMarks(cfgs, call, idx, p0, call.nodes);
    PrimaryIsFirst(cfgs, call, node.vmSet.value, 0);
    assert !HasPrimary(cfgs, call, node);
    var es := Eligible(cfgs, call, node);
    forall i: nat
      ensures i in es <==> ForLabels(cfgs, call, node, i)
    {
      EligibleExactly(cfgs, call, node, i);
    }
    assert Settled(cfgs, call, q.active, node);
    OnceIfAtAll(q.active, node.name);
    if es != [] {
      var j: nat :| j in es && On(q.active, node.name, j);
      assert forall i: nat :: On(q.active, node.name, i) ==> i == j;
    }
  }

  /** A node that was marked before stays where it is. */
  lemma MarkedStays(cfgs: seq<SlbConfig>, call: Call, p: Place, node: Node)
    requires Ready(cfgs, call, p) && node in call.nodes && node.name in p.marks
    ensures var q := Arrange(cfgs, call, p).0; Same(p.active, q.active, node.name) && node.name in q.marks
  {
    Both(cfgs, call, p);
    PruneEdit(p.active, NodeNames(call.nodes));
    var p0 := Pruned(call, p);
    var q := PrimaryPass(cfgs, call, IndexOf(p0), p0, call.nodes).0;
    assert Same(p.active, p0.active, node.name) && Same(p0.active, q.active, node.name);
    assert Same(q.active, Arrange(cfgs, call, p).0.active, node.name);
  }

  /** Where the nodes of a successful call are after it. */
  ghost predicate PlacedRight(cfgs: seq<SlbConfig>, call: Call, before: Place, after: Place) {
    && (forall node :: node in call.nodes && node.name in before.marks ==> Same(before.active, after.active, node.name))
    && ByVMSet(cfgs, call, before.marks, after.active, call.nodes)
    && (forall node :: node in call.nodes && node.name !in before.marks && NoVMSet(cfgs, call, node) ==>
          ByLabels(cfgs, call, node, after.active))
  }

  /** On configurations for its labels only, and on one if there is any. */
  ghost predicate ByLabels(cfgs: seq<SlbConfig>, call: Call, node: Node, a: Active) {
    && (forall i: nat :: On(a, node.name, i) ==> ForLabels(cfgs, call, node, i))
    && (forall i: nat :: ForLabels(cfgs, call, node, i) ==> OnOne(a, node.name))
  }

  predicate NoVMSet(cfgs: seq<SlbConfig>, call: Call, node: Node) {
    node.vmSet.Some? ==> forall k :: 0 <= k < |cfgs| ==> !TakesVMSet(call, cfgs[k], node.vmSet.value)
  }

  ghost predicate OnOne(a: Active, name: string) {
    exists i: nat :: ExactlyOn(a, name, i)
  }

  lemma ArrangePlaces(cfgs: seq<SlbConfig>, call: Call, p: Place)
    requires Ready(cfgs, call, p) && !Arrange(cfgs, call, p).1
    ensures PlacedRight(cfgs, call, p, Arrange(cfgs, call, p).0)
  {
    forall node | node in call.nodes && node.name in p.marks
      ensures Same(p.active, Arrange(cfgs, call, p).0.active, node.name)
    {
      MarkedStays(cfgs, call, p, node);
    }
    forall node, i: nat |
        node in call.nodes && node.name !in p.marks && node.vmSet.Some? &&
        FirstForVMSet(cfgs, call, node.vmSet.value, i)
      ensures ExactlyOn(Arrange(cfgs, call, p).0.active, node.name, i)
    {
      PlacedByVMSet(cfgs, call, p, node, i);
    }
    forall node | node in call.nodes && node.name !in p.marks && NoVMSet(cfgs, call, node)
      ensures ByLabels(cfgs, call, node, Arrange(cfgs, call, p).0.active)
    {
      PlacedByLabels(cfgs, call, p, node);
    }
  }

  // ---------- Ties and deletions ----------

  /** Among those with the fewest nodes the first is chosen. */
  lemma {:induction false} FewestIsFirst(a: Active, es: seq<nat>) returns (j: nat)
    requires es != [] && forall k :: 0 <= k < |es| ==> Size(a, es[k]) < MAX_INT32
    ensures j < |es| && Fewest(a, es) == Some(es[j])
    ensures forall k :: 0 <= k < j ==> Size(a, es[k]) > Size(a, es[j])
    ensures forall k :: 0 <= k < |es| ==> Size(a, es[k]) >= Size(a, es[j])
  {
    var n := |es| - 1;
    FewestIsLeast(a, es);
    if n == 0 {
      j := 0;
    } else {
      var before := es[..n];
      FewestIsLeast(a, before);
      j := FewestIsFirst(a, before);
      if Fewest(a, es) != Fewest(a, before) {
        j := n;
      }
    }
  }

  /** Deleting a load balancer empties the first configuration of its name, and only its nodes lose their marks. */
  lemma {:induction false} DeletionEmpties(cfgs: seq<SlbConfig>, lb: string, p: Place, from: nat, i: nat)
    requires |p.active| == |cfgs| && from <= i < |cfgs|
    requires Called(lb, cfgs[i].name) && forall k :: from <= k < i ==> !Called(lb, cfgs[k].name)
    ensures var q := AfterDelete(cfgs, lb, p, from);
            && |q.active| == |p.active| && q.active[i] == Some({})
            && (forall k :: 0 <= k < |p.active| && k != i ==> q.active[k] == p.active[k])
            && (forall n :: n in q.marks <==> n in p.marks && n !in Members(p.active[i]))
    decreases i - from
  {
    NamesExactly(lb, cfgs[from]);
    if from < i {
      DeletionEmpties(cfgs, lb, p, from + 1, i);
    }
  }
}
