/**
 Which load balancer configuration each node is on (pkg/provider/azure_loadbalancer.go): nodes that left are
 dropped, then nodes go to the configuration of their VM set, then the rest to the eligible configuration
 with the fewest nodes.  Node names are lower-case, as Kubernetes names are.
 */
module Placement {
  import opened Text

  type Labels = map<string, string>

  /** Selectors come from a library, so any predicate on labels stands for one. */
  datatype Selector = NoSelector | EmptySelector | BadSelector | Selects(matches: Labels -> bool)

  datatype SlbConfig = SlbConfig(name: string, primaryVMSet: string, selector: Selector)

  /** vmSet is None when looking it up fails. */
  datatype Node = Node(name: string, labels: Labels, vmSet: Option<string>)

  /** Names of existing load balancers, and the one being reconciled, which may not exist yet. */
  datatype Call = Call(lbName: string, lbs: seq<string>, nodes: seq<Node>)

  const SUFFIX := "-internal"

  /** trimSuffixIgnoreCase with "-internal". */
  function Trim(lb: string): string {
    var l := Lower(lb);
    if |l| >= |SUFFIX| && l[|l| - |SUFFIX|..] == SUFFIX then l[..|l| - |SUFFIX|] else l
  }

  predicate Names(lb: string, cfg: SlbConfig) {
    EqualFold(Trim(lb), cfg.name)
  }

  /** The load balancer of the configuration exists or is about to. */
  predicate Available(call: Call, cfg: SlbConfig) {
    (exists lb :: lb in call.lbs && Names(lb, cfg)) || Names(call.lbName, cfg)
  }

  function NodeNames(nodes: seq<Node>): set<string> {
    set n | n in nodes :: n.name
  }

  // ---------- Active nodes ----------

  /** ActiveNodes of each configuration; None is Go's nil. */
  type Active = seq<Option<set<string>>>

  /** Which configuration a node was on when the call began. */
  type Where = map<string, nat>

  function Members(o: Option<set<string>>): set<string> {
    if o.Some? then o.value else {}
  }

  function Without(o: Option<set<string>>, name: string): Option<set<string>> {
    if o.Some? then Some(o.value - {name}) else None
  }

  function Insert(a: Active, i: nat, name: string): Active
    requires i < |a|
  {
    a[i := Some(Members(a[i]) + {name})]
  }

  /** removeNodeFromLBConfig, by the index built when the call began. */
  function Remove(a: Active, idx: Where, name: string): Active {
    if name in idx && idx[name] < |a| then a[idx[name] := Without(a[idx[name]], name)] else a
  }

  function PrunedTo(o: Option<set<string>>, names: set<string>): Option<set<string>> {
    if o.Some? then Some(o.value * names) else None
  }

  function Prune(a: Active, names: set<string>): Active {
    seq(|a|, i requires 0 <= i < |a| => PrunedTo(a[i], names))
  }

  /** Where each node is; with a node in two places, the last one. */
  function Index(a: Active, upto: nat): (idx: Where)
    requires upto <= |a|
    ensures forall n :: n in idx ==> idx[n] < upto
  {
    if upto == 0 then map[]
    else Index(a, upto - 1) + AllAt(Members(a[upto - 1]), upto - 1)
  }

  function AllAt(here: set<string>, i: nat): Where {
    map n | n in here :: i
  }

  // ---------- The two passes ----------

  datatype Place = Place(active: Active, marks: set<string>)

  datatype Test = MatchTest(call: Call, node: Node) | PlainTest(call: Call) {
    predicate Holds(cfg: SlbConfig) {
      match this
      case MatchTest(call, node) => cfg.selector.Selects? && cfg.selector.matches(node.labels) && Available(call, cfg)
      case PlainTest(call) => cfg.selector.NoSelector? && Available(call, cfg)
    }
  }

  predicate Below(es: seq<nat>, n: nat) {
    forall k :: 0 <= k < |es| ==> es[k] < n
  }

  /** The numbers below a bound that satisfy a condition, in order. */
  function Indices(keep: nat -> bool, upto: nat): (es: seq<nat>)
    ensures Below(es, upto)
  {
    if upto == 0 then []
    else Indices(keep, upto - 1) + if keep(upto - 1) then [upto - 1] else []
  }

  lemma {:induction false} IndicesWhere(keep: nat -> bool, upto: nat)
    ensures forall i: nat :: i in Indices(keep, upto) <==> i < upto && keep(i)
  {
    if upto > 0 {
      IndicesWhere(keep, upto - 1);
    }
  }

  datatype Choice = Choice(cfgs: seq<SlbConfig>, t: Test) {
    predicate Keeps(i: nat) {
      i < |cfgs| && t.Holds(cfgs[i])
    }
  }

  function Pick(cfgs: seq<SlbConfig>, t: Test, upto: nat): (es: seq<nat>)
    ensures Below(es, upto)
  {
    Indices(Choice(cfgs, t).Keeps, upto)
  }

  /** Matching configurations, or those without a selector when none matches. */
  function Eligible(cfgs: seq<SlbConfig>, call: Call, node: Node): (es: seq<nat>)
    ensures Below(es, |cfgs|)
  {
    var m := Pick(cfgs, MatchTest(call, node), |cfgs|);
    if m != [] then m else Pick(cfgs, PlainTest(call), |cfgs|)
  }

  function Size(a: Active, i: nat): nat {
    if i < |a| then |Members(a[i])| else 0
  }

  /** The first of the configurations with the fewest nodes. */
  function Fewest(a: Active, es: seq<nat>): (best: Option<nat>)
    ensures best.Some? ==> best.value in es
  {
    if es == [] then None
    else
      var n := |es| - 1;
      var best, i := Fewest(a, es[..n]), es[n];
      if Size(a, i) < (if best.None? then MAX_INT32 else Size(a, best.value)) then Some(i) else best
  }

  /** The first available configuration whose primary VM set is the node's. */
  function PrimaryOf(cfgs: seq<SlbConfig>, call: Call, vmSet: string, from: nat): Option<nat>
    decreases |cfgs| - from
  {
    if from >= |cfgs| then None
    else if EqualFold(cfgs[from].primaryVMSet, vmSet) && Available(call, cfgs[from]) then Some(from)
    else PrimaryOf(cfgs, call, vmSet, from + 1)
  }

  function PrimaryStep(cfgs: seq<SlbConfig>, call: Call, idx: Where, p: Place, node: Node, vmSet: string): Place {
    var target := PrimaryOf(cfgs, call, vmSet, 0);
    if target.None? || target.value >= |p.active| then p
    else
      var i := target.value;
      Place(
        if node.name in Members(p.active[i]) then p.active else Insert(Remove(p.active, idx, node.name), i, node.name),
        p.marks + {node.name})
  }

  /** Stops with an error at the first node whose VM set cannot be looked up. */
  function PrimaryPass(cfgs: seq<SlbConfig>, call: Call, idx: Where, p: Place, nodes: seq<Node>): (Place, bool) {
    if nodes == [] then (p, false)
    else
      var n := |nodes| - 1;
      var (q, err) := PrimaryPass(cfgs, call, idx, p, nodes[..n]);
      if err then (q, true)
      else if nodes[n].name in q.marks then (q, false)
      else if nodes[n].vmSet.None? then (q, true)
      else (PrimaryStep(cfgs, call, idx, q, nodes[n], nodes[n].vmSet.value), false)
  }

  predicate AnyBad(cfgs: seq<SlbConfig>) {
    exists i :: 0 <= i < |cfgs| && cfgs[i].selector.BadSelector?
  }

  function SelectorStep(cfgs: seq<SlbConfig>, call: Call, idx: Where, p: Place, node: Node): Place
    requires |p.active| == |cfgs|
  {
    var es := Eligible(cfgs, call, node);
    if node.name in idx && idx[node.name] in es then p
    else
      var best := Fewest(p.active, es);
      var leaves := node.name in idx && (best.None? || idx[node.name] != best.value);
      var a := if leaves then Remove(p.active, idx, node.name) else p.active;
      p.(active := if best.None? then a else Insert(a, best.value, node.name))
  }

  function SelectorPass(cfgs: seq<SlbConfig>, call: Call, idx: Where, p: Place, nodes: seq<Node>): (r: (Place, bool))
    requires |p.active| == |cfgs|
    ensures |r.0.active| == |cfgs| && r.0.marks == p.marks
  {
    if nodes == [] then (p, false)
    else
      var n := |nodes| - 1;
      var (q, err) := SelectorPass(cfgs, call, idx, p, nodes[..n]);
      if err then (q, true)
      else if nodes[n].name in q.marks then (q, false)
      else if AnyBad(cfgs) then (q, true)
      else (SelectorStep(cfgs, call, idx, q, nodes[n]), false)
  }

  /** One call of reconcileMultipleStandardLoadBalancerBackendNodes; true means an error was returned. */
  function Arrange(cfgs: seq<SlbConfig>, call: Call, p: Place): (Place, bool)
    requires |p.active| == |cfgs|
  {
    var pruned := Prune(p.active, NodeNames(call.nodes));
    var idx := Index(pruned, |pruned|);
    var (q, err) := PrimaryPass(cfgs, call, idx, p.(active := pruned), call.nodes);
    PrimarySize(cfgs, call, idx, p.(active := pruned), call.nodes);
    if err then (q, true) else SelectorPass(cfgs, call, idx, q, call.nodes)
  }

  lemma PickIndices(cfgs: seq<SlbConfig>, t: Test, upto: nat)
    requires upto <= |cfgs|
    ensures forall i: nat :: i in Pick(cfgs, t, upto) <==> i < upto && t.Holds(cfgs[i])
  {
    IndicesWhere(Choice(cfgs, t).Keeps, upto);
    assert forall i: nat :: i < upto ==> (Choice(cfgs, t).Keeps(i) <==> t.Holds(cfgs[i]));
  }

  lemma {:induction false} PrimarySize(cfgs: seq<SlbConfig>, call: Call, idx: Where, p: Place, nodes: seq<Node>)
    ensures |PrimaryPass(cfgs, call, idx, p, nodes).0.active| == |p.active|
  {
    if nodes != [] {
      PrimarySize(cfgs, call, idx, p, nodes[..|nodes| - 1]);
    }
  }

  // ---------- Other events ----------

  /** safeDeleteLoadBalancer: the first configuration of that name loses its nodes, and they lose their marks. */
  function AfterDelete(cfgs: seq<SlbConfig>, lb: string, p: Place, from: nat): Place
    decreases |cfgs| - from
  {
    if from >= |cfgs| || from >= |p.active| then p
    else if Names(lb, cfgs[from]) then Place(p.active[from := Some({})], p.marks - Members(p.active[from]))
    else AfterDelete(cfgs, lb, p, from + 1)
  }
}
