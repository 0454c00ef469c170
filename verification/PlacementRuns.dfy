/** Whole runs of arrangements and deletions; arranging again; balance. */
module PlacementRuns {
  import opened Text
  import opened Placement
  import opened PlacementSafety

  // ---------- Runs ----------

  /** What the cluster pools of an existing load balancer say at a restart. */
  datatype Record = Record(lb: string, names: set<string>)

  function RestoreOne(cfgs: seq<SlbConfig>, a: Active, r: Record): Active
    requires |a| == |cfgs|
  {
    seq(|a|, i requires 0 <= i < |a| => if Names(r.lb, cfgs[i]) then Some(Members(a[i]) + r.names) else a[i])
  }

  /** recordExistingNodesOnLoadBalancers. */
  function Restore(cfgs: seq<SlbConfig>, a: Active, rs: seq<Record>): (b: Active)
    requires |a| == |cfgs|
    ensures |b| == |cfgs|
  {
    if rs == [] then a else RestoreOne(cfgs, Restore(cfgs, a, rs[..|rs| - 1]), rs[|rs| - 1])
  }

  ghost predicate RecordedOn(cfgs: seq<SlbConfig>, rs: seq<Record>, n: string, i: nat) {
    i < |cfgs| && exists r :: r in rs && Names(r.lb, cfgs[i]) && n in r.names
  }

  lemma {:induction false} RestoredMembers(cfgs: seq<SlbConfig>, a: Active, rs: seq<Record>, n: string, i: nat)
    requires |a| == |cfgs| && i < |a|
    ensures n in Members(Restore(cfgs, a, rs)[i]) <==> n in Members(a[i]) || RecordedOn(cfgs, rs, n, i)
  {
    if rs != [] {
      var k := |rs| - 1;
      RestoredMembers(cfgs, a, rs[..k], n, i);
      assert rs == rs[..k] + [rs[k]];
    }
  }

  /** A new process: no marks, no active nodes, and then what the pools say. */
  function Restarted(cfgs: seq<SlbConfig>, rs: seq<Record>): (p: Place)
    ensures |p.active| == |cfgs|
  {
    Place(Restore(cfgs, seq(|cfgs|, i => None), rs), {})
  }

  /** A restart from pools that hold each listed node under one configuration. */
  lemma RestartIsReady(cfgs: seq<SlbConfig>, call: Call, rs: seq<Record>)
    requires DistinctNames(call.nodes) && |call.nodes| < MAX_INT32
    requires forall n, i: nat, j: nat ::
               n in NodeNames(call.nodes) && RecordedOn(cfgs, rs, n, i) && RecordedOn(cfgs, rs, n, j) ==> i == j
    ensures Ready(cfgs, call, Restarted(cfgs, rs))
  {
    var none: Active := seq(|cfgs|, i => None);
    var b := Prune(Restore(cfgs, none, rs), NodeNames(call.nodes));
    forall i, j, n | 0 <= i < j < |b| && n in Members(b[i])
      ensures n !in Members(b[j])
    {
      RestoredMembers(cfgs, none, rs, n, i);
      RestoredMembers(cfgs, none, rs, n, j);
    }
  }

  datatype Event =
    | Reconcile(call: Call)
    | Restart(records: seq<Record>, call: Call)
    | DeleteLB(lb: string)
    | ForgetNode(name: string)

  function Step(cfgs: seq<SlbConfig>, p: Place, e: Event): (q: Place)
    requires |p.active| == |cfgs|
    ensures |q.active| == |cfgs|
  {
    match e
    case Reconcile(call) => Arranged(cfgs, call, p)
    case Restart(rs, call) => Arranged(cfgs, call, Restarted(cfgs, rs))
    case DeleteLB(lb) => DeleteSize(cfgs, lb, p, 0); AfterDelete(cfgs, lb, p, 0)
    case ForgetNode(n) => p.(marks := p.marks - {n})
  }

  function Arranged(cfgs: seq<SlbConfig>, call: Call, p: Place): (q: Place)
    requires |p.active| == |cfgs|
    ensures |q.active| == |cfgs|
  {
    var pruned := p.(active := Prune(p.active, NodeNames(call.nodes)));
    PrimarySize(cfgs, call, Index(pruned.active, |pruned.active|), pruned, call.nodes);
    Arrange(cfgs, call, p).0
  }

  lemma {:induction false} DeleteSize(cfgs: seq<SlbConfig>, lb: string, p: Place, from: nat)
    ensures |AfterDelete(cfgs, lb, p, from).active| == |p.active|
    ensures forall i :: 0 <= i < |p.active| ==> Members(AfterDelete(cfgs, lb, p, from).active[i]) <= Members(p.active[i])
    decreases |cfgs| - from
  {
    if from < |cfgs| && from < |p.active| {
      DeleteSize(cfgs, lb, p, from + 1);
    }
  }

  ghost predicate Legal(cfgs: seq<SlbConfig>, p: Place, e: Event)
    requires |p.active| == |cfgs|
  {
    match e
    case Reconcile(call) => DistinctNames(call.nodes) && |call.nodes| < MAX_INT32
    case Restart(rs, call) => Ready(cfgs, call, Restarted(cfgs, rs))
    case _ => true
  }

  function Run(cfgs: seq<SlbConfig>, p: Place, es: seq<Event>): (q: Place)
    requires |p.active| == |cfgs|
    ensures |q.active| == |cfgs|
  {
    if es == [] then p else Step(cfgs, Run(cfgs, p, es[..|es| - 1]), es[|es| - 1])
  }

  ghost predicate LegalRun(cfgs: seq<SlbConfig>, p: Place, es: seq<Event>)
    requires |p.active| == |cfgs|
  {
    es != [] ==> LegalRun(cfgs, p, es[..|es| - 1]) && Legal(cfgs, Run(cfgs, p, es[..|es| - 1]), es[|es| - 1])
  }

  /**
   Over every run of reconciliations, including failing ones, restarts, load balancer deletions and node
   deletions, each node name is in the active nodes of at most one configuration.
   */
  lemma {:induction false} OnePlacePerNode(cfgs: seq<SlbConfig>, p: Place, es: seq<Event>)
    requires |p.active| == |cfgs| && AtMostOne(p.active) && LegalRun(cfgs, p, es)
    ensures AtMostOne(Run(cfgs, p, es).active)
  {
    if es != [] {
      var n := |es| - 1;
      var q, e := Run(cfgs, p, es[..n]), es[n];
      OnePlacePerNode(cfgs, p, es[..n]);
      match e {
        case Reconcile(call) =>
          PruneEdit(q.active, NodeNames(call.nodes));
          ArrangeKeeps(cfgs, call, q);
        case Restart(rs, call) => ArrangeKeeps(cfgs, call, Restarted(cfgs, rs));
        case DeleteLB(lb) => DeleteSize(cfgs, lb, q, 0);
        case ForgetNode(_) =>
      }
    }
  }

  // ---------- Arranging again ----------

  /** Marks only grow along the first pass. */
  lemma {:induction false} MarksGrow(cfgs: seq<SlbConfig>, call: Call, idx: Where, p: Place, nodes: seq<Node>, k: nat)
    requires k <= |nodes|
    ensures PrimaryPass(cfgs, call, idx, p, nodes[..k]).0.marks <= PrimaryPass(cfgs, call, idx, p, nodes).0.marks
    ensures PrimaryPass(cfgs, call, idx, p, nodes[..k]).1 ==>
              PrimaryPass(cfgs, call, idx, p, nodes) == PrimaryPass(cfgs, call, idx, p, nodes[..k])
  {
    if k == |nodes| {
      assert nodes[..k] == nodes;
    } else {
      var n := |nodes| - 1;
      MarksGrow(cfgs, call, idx, p, nodes[..n], k);
      assert nodes[..n][..k] == nodes[..k];
    }
  }

  /** A second first pass, from where the first one ended, moves nothing and fails where it failed. */
  lemma {:induction false} PrimaryAgain(
      cfgs: seq<SlbConfig>, call: Call, idx: Where, idx2: Where, p: Place, q: Place, nodes: seq<Node>, k: nat)
    requires k <= |nodes| && |q.active| == |p.active| == |cfgs|
    requires q.marks == PrimaryPass(cfgs, call, idx, p, nodes).0.marks
    ensures PrimaryPass(cfgs, call, idx2, q, nodes[..k]) == (q, PrimaryPass(cfgs, call, idx, p, nodes[..k]).1)
  {
    if k > 0 {
      var n := k - 1;
      PrimaryAgain(cfgs, call, idx, idx2, p, q, nodes, n);
      assert nodes[..k][..n] == nodes[..n];
      MarksGrow(cfgs, call, idx, p, nodes, n);
      MarksGrow(cfgs, call, idx, p, nodes, k);
      PrimarySize(cfgs, call, idx, p, nodes[..n]);
      if nodes[n].vmSet.Some? {
        PrimaryIndex(cfgs, call, nodes[n].vmSet.value, 0);
      }
    }
  }

  lemma {:induction false} SelectorErrors(
      cfgs: seq<SlbConfig>, call: Call, idx: Where, p: Place, nodes: seq<Node>, k: nat)
    requires |p.active| == |cfgs| && k <= |nodes| && SelectorPass(cfgs, call, idx, p, nodes[..k]).1
    ensures SelectorPass(cfgs, call, idx, p, nodes) == SelectorPass(cfgs, call, idx, p, nodes[..k])
  {
    if k == |nodes| {
      assert nodes[..k] == nodes;
    } else {
      var n := |nodes| - 1;
      assert nodes[..n][..k] == nodes[..k];
      SelectorErrors(cfgs, call, idx, p, nodes[..n], k);
    }
  }

  /** A settled node is left where it is. */
  lemma SettledStays(cfgs: seq<SlbConfig>, call: Call, idx: Where, p: Place, node: Node)
    requires |p.active| == |cfgs| && Located(p.active, idx, node.name) && Settled(cfgs, call, p.active, node)
    ensures SelectorStep(cfgs, call, idx, p, node) == p
  {
    var es := Eligible(cfgs, call, node);
    if es == [] {
      if node.name in idx {
        assert On(p.active, node.name, idx[node.name]);
      }
    } else {
      var i: nat :| i in es && On(p.active, node.name, i);
    }
  }

  lemma {:induction false} SelectorAgain(
      cfgs: seq<SlbConfig>, call: Call, idx: Where, idx2: Where, p: Place, q: Place, nodes: seq<Node>, k: nat)
    requires |p.active| == |cfgs| && k <= |nodes|
    requires q == SelectorPass(cfgs, call, idx, p, nodes).0
    requires forall n :: Located(q.active, idx2, n)
    requires !SelectorPass(cfgs, call, idx, p, nodes).1 ==> AllSettled(cfgs, call, p.marks, q.active, nodes)
    ensures SelectorPass(cfgs, call, idx2, q, nodes[..k]) == (q, SelectorPass(cfgs, call, idx, p, nodes[..k]).1)
  {
    if k > 0 {
      var n := k - 1;
      SelectorAgain(cfgs, call, idx, idx2, p, q, nodes, n);
      assert nodes[..k][..n] == nodes[..n];
      var err := SelectorPass(cfgs, call, idx, p, nodes[..n]).1;
      if !err && nodes[n].name !in q.marks && !AnyBad(cfgs) {
        NoErrorLater(cfgs, call, idx, p, nodes);
        assert nodes[n] in nodes && Located(q.active, idx2, nodes[n].name);
        SettledStays(cfgs, call, idx2, q, nodes[n]);
      }
    }
  }

  lemma {:induction false} NoErrorLater(cfgs: seq<SlbConfig>, call: Call, idx: Where, p: Place, nodes: seq<Node>)
    requires |p.active| == |cfgs| && !AnyBad(cfgs)
    ensures !SelectorPass(cfgs, call, idx, p, nodes).1
  {
    if nodes != [] {
      NoErrorLater(cfgs, call, idx, p, nodes[..|nodes| - 1]);
    }
  }

  /** Calling again with the same inputs changes nothing, and ends in an error exactly when the first call did. */
  lemma ArrangeAgain(cfgs: seq<SlbConfig>, call: Call, p: Place)
    requires Ready(cfgs, call, p)
    ensures var (q, err) := Arrange(cfgs, call, p);
            |q.active| == |cfgs| && Arrange(cfgs, call, q) == (q, err)
  {
    Both(cfgs, call, p);
    ArrangeKeeps(cfgs, call, p);
    var p0, nodes := Pruned(call, p), call.nodes;
    var idx := IndexOf(p0);
    var (q1, err1) := PrimaryPass(cfgs, call, idx, p0, nodes);
    var (q, err) := Arrange(cfgs, call, p);
    PruneEdit(q.active, NodeNames(nodes));
    var idx2 := IndexOf(q);
    AllLocated(q.active);
    assert nodes[..|nodes|] == nodes;
    PrimaryAgain(cfgs, call, idx, idx2, p0, q, nodes, |nodes|);
    if !err1 {
      SelectorAgain(cfgs, call, idx, idx2, q1, q, nodes, |nodes|);
    }
  }

  // ---------- Balance ----------

  /** Node counts of the configurations within one of each other. */
  predicate Balanced(a: Active, es: seq<nat>) {
    forall i, j :: 0 <= i < |es| && 0 <= j < |es| ==> Size(a, es[i]) <= Size(a, es[j]) + 1
  }

  /**
   What the second pass may do with a node: leave it, because it is marked or on an eligible configuration;
   place it on one of the configurations es; or move it between configurations that are all outside es.
   */
  predicate Undisturbing(cfgs: seq<SlbConfig>, call: Call, idx: Where, marks: set<string>, node: Node, es: seq<nat>) {
    var own := Eligible(cfgs, call, node);
    || node.name in marks
    || own == es
    || (node.name in idx && idx[node.name] in own)
    || ((node.name in idx ==> idx[node.name] !in es) && forall i :: i in own ==> i !in es)
  }

  predicate SameSizes(a: Active, b: Active, es: seq<nat>) {
    forall k :: 0 <= k < |es| ==> Size(a, es[k]) == Size(b, es[k])
  }

  /** Placing any number of nodes, new ones or moved ones, keeps the configurations they share balanced. */
  lemma {:induction false} StaysBalanced(
      cfgs: seq<SlbConfig>, call: Call, idx: Where, p: Place, nodes: seq<Node>, es: seq<nat>, names: set<string>)
    requires |p.active| == |cfgs| && AtMostOne(p.active) && DistinctNames(nodes)
    requires Within(p.active, names) && NodeNames(nodes) <= names && |names| < MAX_INT32
    requires forall n :: n !in p.marks ==> Located(p.active, idx, n)
    requires forall node :: node in nodes ==> Undisturbing(cfgs, call, idx, p.marks, node, es)
    requires Balanced(p.active, es)
    ensures Balanced(SelectorPass(cfgs, call, idx, p, nodes).0.active, es)
  {
    if nodes != [] {
      var n := |nodes| - 1;
      var before, last := nodes[..n], nodes[n];
      assert nodes == before + [last];
      NamesGrow(nodes);
      StaysBalanced(cfgs, call, idx, p, before, es, names);
      SelectorPassKeeps(cfgs, call, idx, p, before, names);
      var (q, err) := SelectorPass(cfgs, call, idx, p, before);
      assert last in nodes;
      assert last.name !in NodeNames(before);
      if !err && last.name !in p.marks && !AnyBad(cfgs) {
        assert Located(p.active, idx, last.name) && Same(p.active, q.active, last.name);
        StepBalances(cfgs, call, idx, q, last, es, names);
      }
    }
  }

  lemma StepBalances(
      cfgs: seq<SlbConfig>, call: Call, idx: Where, p: Place, node: Node, es: seq<nat>, names: set<string>)
    requires |p.active| == |cfgs| && Within(p.active, names) && |names| < MAX_INT32
    requires Located(p.active, idx, node.name) && Balanced(p.active, es)
    requires node.name !in p.marks && Undisturbing(cfgs, call, idx, p.marks, node, es)
    ensures Balanced(SelectorStep(cfgs, call, idx, p, node).active, es)
  {
    var own := Eligible(cfgs, call, node);
    if !(node.name in idx && idx[node.name] in own) {
      SmallSizes(p.active, names);
      MoveBalances(p.active, idx, node.name, own, es);
      var best := Fewest(p.active, own);
      assert best.Some? ==> best.value in own;
    }
  }

  lemma MoveBalances(a: Active, idx: Where, n: string, own: seq<nat>, es: seq<nat>)
    requires Located(a, idx, n) && Balanced(a, es) && Below(own, |a|)
    requires forall i: nat :: Size(a, i) < MAX_INT32
    requires n in idx ==> idx[n] !in own
    requires own == es || ((n in idx ==> idx[n] !in es) && forall i :: i in own ==> i !in es)
    ensures var best, gone := Fewest(a, own), Remove(a, idx, n);
            Balanced(if best.None? then gone else Insert(gone, best.value, n), es)
  {
    var best, gone := Fewest(a, own), Remove(a, idx, n);
    FewestIsLeast(a, own);
    RemoveKeepsSizes(a, idx, n, es);
    RemoveKeepsSizes(a, idx, n, own);
    if best.Some? {
      assert best.value in own && best.value < |a|;
      if own == es {
        InsertBalances(gone, es, best.value, n);
      } else {
        assert SameSizes(gone, Insert(gone, best.value, n), es);
      }
    }
  }

  lemma RemoveKeepsSizes(a: Active, idx: Where, n: string, es: seq<nat>)
    requires n in idx ==> idx[n] !in es
    ensures SameSizes(a, Remove(a, idx, n), es)
    ensures Balanced(a, es) ==> Balanced(Remove(a, idx, n), es)
  {
  }

  /** The same for a whole call, from the state that its first pass leaves. */
  lemma CallStaysBalanced(cfgs: seq<SlbConfig>, call: Call, p: Place, es: seq<nat>)
    requires Ready(cfgs, call, p)
    requires var idx := IndexOf(Pruned(call, p));
             var (q, _) := PrimaryPass(cfgs, call, idx, Pruned(call, p), call.nodes);
             && Balanced(q.active, es)
             && forall node :: node in call.nodes ==> Undisturbing(cfgs, call, idx, q.marks, node, es)
    ensures Balanced(Arrange(cfgs, call, p).0.active, es)
  {
    var p0, names := Pruned(call, p), NodeNames(call.nodes);
    var idx := IndexOf(p0);
    var (q, err) := PrimaryPass(cfgs, call, idx, p0, call.nodes);
    Both(cfgs, call, p);
    FewNames(call.nodes);
    if !err {
      StaysBalanced(cfgs, call, idx, q, call.nodes, es, names);
    }
  }

  lemma InsertBalances(a: Active, es: seq<nat>, i: nat, n: string)
    requires Balanced(a, es) && i in es && i < |a| && n !in Members(a[i])
    requires forall k :: 0 <= k < |es| ==> Size(a, i) <= Size(a, es[k])
    ensures Balanced(Insert(a, i, n), es)
  {
    var b := Insert(a, i, n);
    assert forall k: nat :: Size(b, k) == if k == i then Size(a, i) + 1 else Size(a, k);
  }
}
