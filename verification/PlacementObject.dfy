/** The placement code as it works, in place, on the active nodes of each configuration and on the marks. */
module PlacementObject {
  import opened Lists
  import opened Placement
  import opened PlacementRuns
  import opened PlacementSafety
  import opened PlacementTargets
  import opened Text

  /** isLBInList. */
  method IsLBInList(lbs: seq<string>, cfg: SlbConfig) returns (found: bool)
    ensures found <==> exists lb :: lb in lbs && Names(lb, cfg)
  {
    for k := 0 to |lbs|
      invariant forall lb :: lb in lbs[..k] ==> !Names(lb, cfg)
    {
      if Names(lbs[k], cfg) {
        return true;
      }
    }
    return false;
  }

  method IsAvailable(call: Call, cfg: SlbConfig) returns (yes: bool)
    ensures yes == Available(call, cfg)
  {
    var found := IsLBInList(call.lbs, cfg);
    return found || Names(call.lbName, cfg);
  }

  datatype Plain = Plain(cfgs: seq<SlbConfig>) {
    predicate Keeps(i: nat) {
      i < |cfgs| && cfgs[i].selector.NoSelector?
    }
  }

  datatype Reachable = Reachable(cfgs: seq<SlbConfig>, call: Call) {
    predicate Keeps(i: nat) {
      i < |cfgs| && Available(call, cfgs[i])
    }
  }

  lemma {:induction false} FilterIndices(p: nat -> bool, q: nat -> bool, both: nat -> bool, upto: nat)
    requires forall i: nat :: i < upto ==> (both(i) <==> p(i) && q(i))
    ensures Filter(Indices(p, upto), q) == Indices(both, upto)
  {
    if upto > 0 {
      var k: nat := upto - 1;
      FilterIndices(p, q, both, k);
      if p(k) {
        FilterSnoc(Indices(p, k), k, q);
      } else {
        assert Indices(p, upto) == Indices(p, k);
        assert Indices(both, upto) == Indices(both, k);
      }
    }
  }

  /** Listing the configurations without a selector and then dropping unavailable ones is PlainTest. */
  lemma PlainAvailable(cfgs: seq<SlbConfig>, call: Call)
    ensures Filter(Indices(Plain(cfgs).Keeps, |cfgs|), Reachable(cfgs, call).Keeps) == Pick(cfgs, PlainTest(call), |cfgs|)
  {
    FilterIndices(Plain(cfgs).Keeps, Reachable(cfgs, call).Keeps, Choice(cfgs, PlainTest(call)).Keeps, |cfgs|);
  }

  /** Matching configurations were all checked for availability already. */
  lemma MatchAvailable(cfgs: seq<SlbConfig>, call: Call, node: Node)
    ensures var es := Pick(cfgs, MatchTest(call, node), |cfgs|); Filter(es, Reachable(cfgs, call).Keeps) == es
  {
    PickIndices(cfgs, MatchTest(call, node), |cfgs|);
    FilterMembers(Pick(cfgs, MatchTest(call, node), |cfgs|), Reachable(cfgs, call).Keeps);
  }

  method EligibleFor(cfgs: seq<SlbConfig>, call: Call, node: Node) returns (es: seq<nat>, err: bool)
    ensures err <==> AnyBad(cfgs)
    ensures !err ==> es == Eligible(cfgs, call, node)
  {
    es, err := [], false;
    for i := 0 to |cfgs|
      invariant forall k :: 0 <= k < i ==> !cfgs[k].selector.BadSelector?
      invariant es == Pick(cfgs, MatchTest(call, node), i)
    {
      if cfgs[i].selector.BadSelector? {
        return es, true;
      }
      if cfgs[i].selector.Selects? && cfgs[i].selector.matches(node.labels) {
        var ok := IsAvailable(call, cfgs[i]);
        if ok {
          es := es + [i];
        }
      }
    }
    MatchAvailable(cfgs, call, node);
    PlainAvailable(cfgs, call);
    if es == [] {
      es := PlainList(cfgs);
    }
    var dropped;
    es, dropped := FilterBackwards(es, Reachable(cfgs, call).Keeps);
  }

  method PlainList(cfgs: seq<SlbConfig>) returns (es: seq<nat>)
    ensures es == Indices(Plain(cfgs).Keeps, |cfgs|)
  {
    es := [];
    for i := 0 to |cfgs|
      invariant es == Indices(Plain(cfgs).Keeps, i)
    {
      if cfgs[i].selector.NoSelector? {
        es := es + [i];
      }
    }
  }

  ghost predicate Indexed(idx0: Where, idx: Where, here: set<string>, todo: set<string>, i: nat) {
    && (forall n :: n in idx <==> n in idx0 || (n in here && n !in todo))
    && (forall n :: n in idx ==> idx[n] == if n in here && n !in todo then i else idx0[n])
  }

  /** Visits the active nodes of one configuration in any order, indexing listed nodes and deleting the others. */
  method Sift(here: set<string>, names: set<string>, i: nat, idx0: Where) returns (kept: set<string>, idx: Where)
    ensures kept == here * names && idx == idx0 + AllAt(kept, i)
  {
    kept, idx := here, idx0;
    var todo := here;
    while todo != {}
      invariant todo <= kept <= here && here * names <= kept
      invariant kept - todo <= names
      invariant Indexed(idx0, idx, kept, todo, i)
      decreases |todo|
    {
      var n :| n in todo;
      todo := todo - {n};
      if n in names {
        idx := idx[n := i];
      } else {
        kept := kept - {n};
      }
    }
  }

  /** The part of Cloud that knows which nodes are on which load balancer. */
  class SlbPlacement {
    const cfgs: seq<SlbConfig>
    var active: seq<Option<set<string>>>
    var marks: set<string>

    ghost predicate Valid()
      reads this
    {
      |active| == |cfgs|
    }

    ghost function View(): Place
      reads this
    {
      Place(active, marks)
    }

    constructor (cfgs: seq<SlbConfig>)
      ensures Valid() && this.cfgs == cfgs && View() == Place(seq(|cfgs|, i => None), {})
    {
      this.cfgs := cfgs;
      active := seq(|cfgs|, i => None);
      marks := {};
    }

    method RemoveNodeFromLBConfig(idx: Where, name: string)
      requires Valid() && forall n :: n in idx ==> idx[n] < |cfgs|
      modifies this`active
      ensures Valid() && active == Remove(old(active), idx, name)
    {
      if name in idx {
        var i := idx[name];
        if active[i].Some? {
          active := active[i := Some(active[i].value - {name})];
        }
      }
    }

    method RemoveDeletedNodes(nodes: seq<Node>) returns (idx: Where)
      requires Valid()
      modifies this`active
      ensures Valid() && active == Prune(old(active), NodeNames(nodes)) && idx == Index(active, |active|)
    {
      var names: set<string> := {};
      for k := 0 to |nodes|
        invariant names == NodeNames(nodes[..k]) && active == old(active)
      {
        NamesGrow(nodes[..k + 1]);
        assert nodes[..k + 1][..k] == nodes[..k];
        names := names + {nodes[k].name};
      }
      assert nodes[..|nodes|] == nodes;
      idx := PruneAll(names);
    }

    method PruneAll(names: set<string>) returns (idx: Where)
      requires Valid()
      modifies this`active
      ensures Valid() && active == Prune(old(active), names) && idx == Index(active, |active|)
    {
      idx := map[];
      ghost var want := Prune(active, names);
      for i := 0 to |cfgs|
        invariant Valid() && idx == Index(want, i)
        invariant forall k :: 0 <= k < |active| ==> active[k] == if k < i then want[k] else old(active)[k]
      {
        idx := PruneOne(i, names, idx);
      }
      assert active == want;
    }

    method PruneOne(i: nat, names: set<string>, idx0: Where) returns (idx: Where)
      requires Valid() && i < |cfgs|
      modifies this`active
      ensures active == old(active)[i := PrunedTo(old(active)[i], names)]
      ensures idx == idx0 + AllAt(Members(active[i]), i)
    {
      if active[i].None? {
        assert idx0 == idx0 + AllAt({}, i);
        return idx0;
      }
      var kept;
      kept, idx := Sift(active[i].value, names, i, idx0);
      active := active[i := Some(kept)];
    }

    method AccommodateNodesByPrimaryVMSet(call: Call, idx: Where) returns (err: bool)
      requires Valid() && forall n :: n in idx ==> idx[n] < |cfgs|
      modifies this
      ensures Valid() && (View(), err) == PrimaryPass(cfgs, call, idx, old(View()), call.nodes)
      ensures AtMostOne(old(active)) && DistinctNames(call.nodes) && (forall n :: Located(old(active), idx, n)) ==>
                err || ByVMSet(cfgs, call, old(marks), active, call.nodes)
    {
      var nodes := call.nodes;
      for k := 0 to |nodes|
        invariant Valid() && (View(), false) == PrimaryPass(cfgs, call, idx, old(View()), nodes[..k])
      {
        assert nodes[..k + 1][..k] == nodes[..k];
        if nodes[k].name !in marks {
          if nodes[k].vmSet.None? {
            MarksGrow(cfgs, call, idx, old(View()), nodes, k + 1);
            return true;
          }
          PlaceByPrimaryVMSet(call, idx, nodes[k], nodes[k].vmSet.value);
        }
      }
      assert nodes[..|nodes|] == nodes;
      if AtMostOne(old(active)) && DistinctNames(nodes) && forall n :: Located(old(active), idx, n) {
        FirstPassPlaces(cfgs, call, idx, old(View()), nodes);
      }
      return false;
    }

    method PlaceByPrimaryVMSet(call: Call, idx: Where, node: Node, vmSet: string)
      requires Valid() && forall n :: n in idx ==> idx[n] < |cfgs|
      modifies this
      ensures Valid() && View() == PrimaryStep(cfgs, call, idx, old(View()), node, vmSet)
    {
      for i := 0 to |cfgs|
        invariant View() == old(View()) && PrimaryOf(cfgs, call, vmSet, 0) == PrimaryOf(cfgs, call, vmSet, i)
      {
        if EqualFold(cfgs[i].primaryVMSet, vmSet) {
          var ok := IsAvailable(call, cfgs[i]);
          if ok {
            marks := marks + {node.name};
            if node.name !in Members(active[i]) {
              RemoveNodeFromLBConfig(idx, node.name);
              active := active[i := Some(Members(active[i]) + {node.name})];
            }
            return;
          }
        }
      }
    }

    method LeastLoaded(es: seq<nat>) returns (best: Option<nat>)
      requires Valid() && Below(es, |cfgs|)
      ensures best == Fewest(active, es)
    {
      best := None;
      var least := MAX_INT32;
      for k := 0 to |es|
        invariant best == Fewest(active, es[..k])
        invariant least == if best.None? then MAX_INT32 else Size(active, best.value)
      {
        assert es[..k + 1][..k] == es[..k];
        if |Members(active[es[k]])| < least {
          least := |Members(active[es[k]])|;
          best := Some(es[k]);
        }
      }
      assert es[..|es|] == es;
    }

    method PlaceByNodeSelector(call: Call, idx: Where, node: Node, es: seq<nat>)
      requires Valid() && (forall n :: n in idx ==> idx[n] < |cfgs|) && es == Eligible(cfgs, call, node)
      modifies this`active
      ensures Valid() && View() == SelectorStep(cfgs, call, idx, old(View()), node)
    {
      if node.name in idx && idx[node.name] in es {
        return;
      }
      var best := LeastLoaded(es);
      if node.name in idx && (best.None? || idx[node.name] != best.value) {
        RemoveNodeFromLBConfig(idx, node.name);
      }
      if best.Some? {
        active := active[best.value := Some(Members(active[best.value]) + {node.name})];
      }
    }

    method AccommodateNodesByNodeSelector(call: Call, idx: Where) returns (err: bool)
      requires Valid() && forall n :: n in idx ==> idx[n] < |cfgs|
      modifies this`active
      ensures Valid() && (View(), err) == SelectorPass(cfgs, call, idx, old(View()), call.nodes)
    {
      var nodes := call.nodes;
      for k := 0 to |nodes|
        invariant Valid() && (View(), false) == SelectorPass(cfgs, call, idx, old(View()), nodes[..k])
      {
        assert nodes[..k + 1][..k] == nodes[..k];
        if nodes[k].name !in marks {
          var es, bad := EligibleFor(cfgs, call, nodes[k]);
          if bad {
            SelectorErrors(cfgs, call, idx, old(View()), nodes, k + 1);
            return true;
          }
          PlaceByNodeSelector(call, idx, nodes[k], es);
        }
      }
      assert nodes[..|nodes|] == nodes;
      return false;
    }

    /** recordExistingNodesOnLoadBalancers. */
    method RecordExistingNodes(rs: seq<Record>)
      requires Valid()
      modifies this`active
      ensures Valid() && active == Restore(cfgs, old(active), rs)
    {
      for k := 0 to |rs|
        invariant Valid() && active == Restore(cfgs, old(active), rs[..k])
      {
        assert rs[..k + 1][..k] == rs[..k];
        RecordPool(rs[k]);
      }
      assert rs[..|rs|] == rs;
    }

    method RecordPool(r: Record)
      requires Valid()
      modifies this`active
      ensures Valid() && active == RestoreOne(cfgs, old(active), r)
    {
      ghost var want := RestoreOne(cfgs, active, r);
      for i := 0 to |cfgs|
        invariant Valid()
        invariant forall k :: 0 <= k < |active| ==> active[k] == if k < i then want[k] else old(active)[k]
      {
        if Names(r.lb, cfgs[i]) {
          active := active[i := Some(Members(active[i]) + r.names)];
        }
      }
      assert active == want;
    }

    /**
     reconcileMultipleStandardLoadBalancerBackendNodes.  At a start of the process it first reads the pools;
     records is None when the pools are not of the kind that holds node IPs, which is an error.
     */
    method ReconcileBackendNodes(call: Call, init: bool, records: Option<seq<Record>>) returns (err: bool)
      requires Valid()
      modifies this
      ensures Valid()
      ensures if init && records.None? then
                err && View() == old(View())
              else
                var start := if init then Restore(cfgs, old(active), records.value) else old(active);
                && (View(), err) == Arrange(cfgs, call, Place(start, old(marks)))
                && (!err && Ready(cfgs, call, Place(start, old(marks))) ==>
                      PlacedRight(cfgs, call, Place(start, old(marks)), View()))
    {
      if init {
        if records.None? {
          return true;
        }
        RecordExistingNodes(records.value);
      }
      ghost var start := View();
      var idx := RemoveDeletedNodes(call.nodes);
      PrimarySize(cfgs, call, idx, View(), call.nodes);
      err := AccommodateNodesByPrimaryVMSet(call, idx);
      if !err {
        err := AccommodateNodesByNodeSelector(call, idx);
      }
      assert (View(), err) == Arrange(cfgs, call, start);
      if !err && Ready(cfgs, call, start) {
        ArrangePlaces(cfgs, call, start);
      }
    }

    /** What safeDeleteLoadBalancer does once the load balancer is gone. */
    method ForgetLoadBalancer(lb: string)
      requires Valid()
      modifies this
      ensures Valid() && View() == AfterDelete(cfgs, lb, old(View()), 0)
    {
      for i := 0 to |cfgs|
        invariant View() == old(View()) && AfterDelete(cfgs, lb, View(), 0) == AfterDelete(cfgs, lb, View(), i)
      {
        if Names(lb, cfgs[i]) {
          var todo := Members(active[i]);
          ghost var start := todo;
          while todo != {}
            invariant todo <= start && active == old(active) && marks == old(marks) - (start - todo)
            decreases |todo|
          {
            var n :| n in todo;
            todo := todo - {n};
            marks := marks - {n};
          }
          active := active[i := Some({})];
          return;
        }
      }
    }
  }
}
