/** What one arrangement of nodes keeps: one place per node, and a place for every node that has an eligible one. */
module PlacementSafety {
  import opened Text
  import opened Placement

  /** No node name is on two configurations. */
  predicate AtMostOne(a: Active) {
    forall i, j, n :: 0 <= i < j < |a| && n in Members(a[i]) ==> n !in Members(a[j])
  }

  predicate On(a: Active, n: string, i: nat) {
    i < |a| && n in Members(a[i])
  }

  ghost predicate Somewhere(a: Active, n: string) {
    exists i: nat :: On(a, n, i)
  }

  predicate ExactlyOn(a: Active, n: string, i: nat) {
    i < |a| && forall k :: 0 <= k < |a| ==> (n in Members(a[k]) <==> k == i)
  }

  /** The index tells where the name is. */
  predicate Located(a: Active, idx: Where, n: string) {
    && (n in idx ==> idx[n] < |a|)
    && forall i :: 0 <= i < |a| ==> (n in Members(a[i]) <==> n in idx && idx[n] == i)
  }

  predicate Same(a: Active, a': Active, n: string) {
    |a| == |a'| && forall i :: 0 <= i < |a| ==> (n in Members(a'[i]) <==> n in Members(a[i]))
  }

  predicate Within(a: Active, names: set<string>) {
    forall i :: 0 <= i < |a| ==> Members(a[i]) <= names
  }

  predicate DistinctNames(nodes: seq<Node>) {
    forall i, j :: 0 <= i < j < |nodes| ==> nodes[i].name != nodes[j].name
  }

  // ---------- Edits ----------

  lemma {:induction false} IndexLocates(a: Active, upto: nat)
    requires AtMostOne(a) && upto <= |a|
    ensures forall n :: n in Index(a, upto) <==> exists i: nat :: i < upto && On(a, n, i)
    ensures forall n :: n in Index(a, upto) ==> Index(a, upto)[n] < upto && On(a, n, Index(a, upto)[n])
  {
    if upto > 0 {
      IndexLocates(a, upto - 1);
      forall n | exists i: nat :: i < upto && On(a, n, i)
        ensures n in Index(a, upto)
      {
        var i: nat :| i < upto && On(a, n, i);
        assert i < upto - 1 || n in Members(a[upto - 1]);
      }
      forall n | n in Index(a, upto)
        ensures Index(a, upto)[n] < upto && On(a, n, Index(a, upto)[n])
      {
        if n in Members(a[upto - 1]) {
          assert On(a, n, upto - 1);
        } else {
          assert n in Index(a, upto - 1);
        }
      }
    }
  }

  lemma AllLocated(a: Active)
    requires AtMostOne(a)
    ensures forall n :: Located(a, Index(a, |a|), n)
  {
    IndexLocates(a, |a|);
    forall n
      ensures Located(a, Index(a, |a|), n)
    {
      LocatedOnce(a, Index(a, |a|), n);
    }
  }

  lemma LocatedOnce(a: Active, idx: Where, n: string)
    requires AtMostOne(a)
    requires n in idx <==> exists i: nat :: i < |a| && On(a, n, i)
    requires n in idx ==> On(a, n, idx[n])
    ensures Located(a, idx, n)
  {
    forall i | 0 <= i < |a| && n in Members(a[i])
      ensures n in idx && idx[n] == i
    {
      assert On(a, n, i);
    }
  }

  lemma RemovedEdit(a: Active, idx: Where, n: string)
    requires AtMostOne(a) && Located(a, idx, n)
    ensures var a' := Remove(a, idx, n);
            && |a'| == |a| && AtMostOne(a')
            && (forall i :: 0 <= i < |a| ==> n !in Members(a'[i]))
            && (forall m :: m != n ==> Same(a, a', m))
  {
  }

  lemma MovedEdit(a: Active, idx: Where, n: string, i: nat)
    requires AtMostOne(a) && Located(a, idx, n) && i < |a|
    ensures var a' := Insert(Remove(a, idx, n), i, n);
            AtMostOne(a') && ExactlyOn(a', n, i) && forall m :: m != n ==> Same(a, a', m)
  {
  }

  lemma PruneEdit(a: Active, names: set<string>)
    ensures AtMostOne(a) ==> AtMostOne(Prune(a, names))
    ensures Within(Prune(a, names), names)
    ensures forall n :: n in names ==> Same(a, Prune(a, names), n)
    ensures Within(a, names) ==> Prune(a, names) == a
  {
    var b := Prune(a, names);
    assert forall i :: 0 <= i < |a| ==> Members(b[i]) == Members(a[i]) * names;
    if Within(a, names) {
      forall i | 0 <= i < |a|
        ensures b[i] == a[i]
      {
        assert Members(a[i]) * names == Members(a[i]);
      }
    }
  }

  // ---------- The first pass ----------

  predicate HasPrimary(cfgs: seq<SlbConfig>, call: Call, node: Node) {
    node.vmSet.Some? && PrimaryOf(cfgs, call, node.vmSet.value, 0).Some?
  }

  lemma {:induction false} PrimaryIndex(cfgs: seq<SlbConfig>, call: Call, vmSet: string, from: nat)
    ensures PrimaryOf(cfgs, call, vmSet, from).Some? ==> PrimaryOf(cfgs, call, vmSet, from).value < |cfgs|
    decreases |cfgs| - from
  {
    if from < |cfgs| {
      PrimaryIndex(cfgs, call, vmSet, from + 1);
    }
  }

  /** What the first pass leaves: only nodes it marks are moved, and each of those is in one place. */
  ghost predicate Passed(p: Place, q: Place, names: set<string>) {
    && |q.active| == |p.active| && AtMostOne(q.active)
    && p.marks <= q.marks <= p.marks + names
    && (forall n :: n in p.marks || n !in q.marks ==> Same(p.active, q.active, n))
    && (forall n :: n in q.marks && n !in p.marks ==> Somewhere(q.active, n))
  }

  lemma PrimaryStepKeeps(
      cfgs: seq<SlbConfig>, call: Call, idx: Where, p: Place, q: Place, node: Node, names: set<string>)
    requires |p.active| == |cfgs| && node.vmSet.Some? && node.name in names && node.name !in q.marks
    requires forall n :: Located(p.active, idx, n)
    requires Passed(p, q, names)
    ensures var r := PrimaryStep(cfgs, call, idx, q, node, node.vmSet.value);
            && Passed(p, r, names)
            && r.marks == (if HasPrimary(cfgs, call, node) then q.marks + {node.name} else q.marks)
            && (!HasPrimary(cfgs, call, node) ==> r == q)
  {
    PrimaryIndex(cfgs, call, node.vmSet.value, 0);
    var r := PrimaryStep(cfgs, call, idx, q, node, node.vmSet.value);
    if HasPrimary(cfgs, call, node) {
      var i := PrimaryOf(cfgs, call, node.vmSet.value, 0).value;
      assert Located(p.active, idx, node.name);
      assert Located(q.active, idx, node.name);
      if node.name in Members(q.active[i]) {
        assert On(r.active, node.name, i);
      } else {
        MovedEdit(q.active, idx, node.name, i);
        assert On(r.active, node.name, i);
      }
      forall n | n in q.marks && n !in p.marks
        ensures Somewhere(r.active, n)
      {
        var k: nat :| On(q.active, n, k);
        assert On(r.active, n, k);
      }
    }
  }

  lemma NamesGrow(nodes: seq<Node>)
    requires nodes != []
    ensures NodeNames(nodes) == NodeNames(nodes[..|nodes| - 1]) + {nodes[|nodes| - 1].name}
  {
  }

  lemma {:induction false} PrimaryPassKeeps(cfgs: seq<SlbConfig>, call: Call, idx: Where, p: Place, nodes: seq<Node>)
    requires |p.active| == |cfgs| && AtMostOne(p.active)
    requires forall n :: Located(p.active, idx, n)
    ensures Passed(p, PrimaryPass(cfgs, call, idx, p, nodes).0, NodeNames(nodes))
  {
    if nodes != [] {
      var n := |nodes| - 1;
      PrimaryPassKeeps(cfgs, call, idx, p, nodes[..n]);
      NamesGrow(nodes);
      var (q, err) := PrimaryPass(cfgs, call, idx, p, nodes[..n]);
      if !err && nodes[n].name !in q.marks && nodes[n].vmSet.Some? {
        PrimaryStepKeeps(cfgs, call, idx, p, q, nodes[n], NodeNames(nodes));
      }
    }
  }

  /** Without an error, exactly the unmarked nodes that have an available primary configuration get a mark. */
  lemma {:induction false} PrimaryPassMarks(cfgs: seq<SlbConfig>, call: Call, idx: Where, p: Place, nodes: seq<Node>)
    requires |p.active| == |cfgs| && AtMostOne(p.active) && DistinctNames(nodes)
    requires forall n :: Located(p.active, idx, n)
    requires !PrimaryPass(cfgs, call, idx, p, nodes).1
    ensures forall node :: node in nodes && node.name !in p.marks ==>
              (node.name in PrimaryPass(cfgs, call, idx, p, nodes).0.marks <==> HasPrimary(cfgs, call, node))
  {
    if nodes != [] {
      var n := |nodes| - 1;
      PrimaryPassMarks(cfgs, call, idx, p, nodes[..n]);
      PrimaryPassKeeps(cfgs, call, idx, p, nodes[..n]);
      assert nodes == nodes[..n] + [nodes[n]];
      var q := PrimaryPass(cfgs, call, idx, p, nodes[..n]).0;
      assert nodes[n].name !in NodeNames(nodes[..n]);
      if nodes[n].name !in q.marks {
        NamesGrow(nodes);
        PrimaryStepKeeps(cfgs, call, idx, p, q, nodes[n], NodeNames(nodes));
      }
    }
  }

  // ---------- The second pass ----------

  /** The chosen configuration is eligible and has no more nodes than any other eligible one. */
  lemma {:induction false} FewestIsLeast(a: Active, es: seq<nat>)
    requires forall k :: 0 <= k < |es| ==> Size(a, es[k]) < MAX_INT32
    ensures Fewest(a, es).None? <==> es == []
    ensures Fewest(a, es).Some? ==> forall k :: 0 <= k < |es| ==> Size(a, Fewest(a, es).value) <= Size(a, es[k])
    ensures Fewest(a, es).Some? ==> Size(a, Fewest(a, es).value) < MAX_INT32
  {
    if es != [] {
      FewestIsLeast(a, es[..|es| - 1]);
    }
  }

  /** On an eligible configuration, or nowhere when there is none. */
  ghost predicate Settled(cfgs: seq<SlbConfig>, call: Call, a: Active, node: Node) {
    var es := Eligible(cfgs, call, node);
    if es == [] then !Somewhere(a, node.name) else exists i: nat :: i in es && On(a, node.name, i)
  }

  lemma SmallSizes(a: Active, names: set<string>)
    requires Within(a, names) && |names| < MAX_INT32
    ensures forall i: nat :: Size(a, i) < MAX_INT32
  {
    forall i: nat
      ensures Size(a, i) < MAX_INT32
    {
      if i < |a| {
        SubsetSize(Members(a[i]), names);
      }
    }
  }

  lemma {:induction false} SubsetSize(s: set<string>, t: set<string>)
    requires s <= t
    ensures |s| <= |t|
    decreases s
  {
    if s != {} {
      var x :| x in s;
      SubsetSize(s - {x}, t - {x});
    }
  }

  lemma SelectorStepKeeps(cfgs: seq<SlbConfig>, call: Call, idx: Where, p: Place, node: Node, names: set<string>)
    requires |p.active| == |cfgs| && AtMostOne(p.active) && Located(p.active, idx, node.name)
    requires Within(p.active, names) && node.name in names && |names| < MAX_INT32
    ensures var q := SelectorStep(cfgs, call, idx, p, node);
            && AtMostOne(q.active) && Within(q.active, names)
            && (forall m :: m != node.name ==> Same(p.active, q.active, m))
            && Settled(cfgs, call, q.active, node)
  {
    var es := Eligible(cfgs, call, node);
    var q := SelectorStep(cfgs, call, idx, p, node);
    if node.name in idx && idx[node.name] in es {
      assert On(q.active, node.name, idx[node.name]);
    } else {
      SmallSizes(p.active, names);
      FewestIsLeast(p.active, es);
      RemovedEdit(p.active, idx, node.name);
      var best := Fewest(p.active, es);
      if best.Some? {
        MovedEdit(p.active, idx, node.name, best.value);
        assert Remove(p.active, idx, node.name) == p.active || node.name in idx;
        assert On(q.active, node.name, best.value);
      }
    }
  }

  /** Marked and unlisted nodes stay where they are; listed unmarked ones are settled. */
  ghost predicate Selected(cfgs: seq<SlbConfig>, call: Call, p: Place, q: Place, nodes: seq<Node>, names: set<string>) {
    && |q.active| == |p.active| && AtMostOne(q.active) && Within(q.active, names)
    && (forall n :: n in p.marks || n !in NodeNames(nodes) ==> Same(p.active, q.active, n))
  }

  lemma SettledKept(cfgs: seq<SlbConfig>, call: Call, a: Active, a': Active, node: Node)
    requires Settled(cfgs, call, a, node) && Same(a, a', node.name)
    ensures Settled(cfgs, call, a', node)
  {
    var es := Eligible(cfgs, call, node);
    if es == [] {
      forall i: nat ensures !On(a', node.name, i) {
        assert !On(a, node.name, i);
      }
    } else {
      var i: nat :| i in es && On(a, node.name, i);
      assert On(a', node.name, i);
    }
  }

  ghost predicate AllSettled(cfgs: seq<SlbConfig>, call: Call, marks: set<string>, a: Active, nodes: seq<Node>) {
    forall node :: node in nodes && node.name !in marks ==> Settled(cfgs, call, a, node)
  }

  /** From the nodes before to one node more, given what its step did. */
  lemma SelectNext(
      cfgs: seq<SlbConfig>, call: Call, p: Place, q: Place, r: Place, before: seq<Node>, last: Node, names: set<string>)
    requires Selected(cfgs, call, p, q, before, names) && AllSettled(cfgs, call, p.marks, q.active, before)
    requires |r.active| == |q.active| && AtMostOne(r.active) && Within(r.active, names)
    requires forall m :: m != last.name ==> Same(q.active, r.active, m)
    requires Settled(cfgs, call, r.active, last)
    requires last.name !in NodeNames(before) && last.name !in p.marks
    ensures Selected(cfgs, call, p, r, before + [last], names) && AllSettled(cfgs, call, p.marks, r.active, before + [last])
  {
    forall node | node in before && node.name !in p.marks
      ensures Settled(cfgs, call, r.active, node)
    {
      assert node.name in NodeNames(before);
      SettledKept(cfgs, call, q.active, r.active, node);
    }
    NamesGrow(before + [last]);
    assert (before + [last])[..|before|] == before;
    forall n | n in p.marks || n !in NodeNames(before + [last])
      ensures Same(p.active, r.active, n)
    {
      assert Same(p.active, q.active, n) && Same(q.active, r.active, n);
    }
  }

  lemma {:induction false} SelectorPassKeeps(
      cfgs: seq<SlbConfig>, call: Call, idx: Where, p: Place, nodes: seq<Node>, names: set<string>)
    requires |p.active| == |cfgs| && AtMostOne(p.active) && DistinctNames(nodes)
    requires Within(p.active, names) && NodeNames(nodes) <= names && |names| < MAX_INT32
    requires forall n :: n !in p.marks ==> Located(p.active, idx, n)
    ensures var (q, err) := SelectorPass(cfgs, call, idx, p, nodes);
            Selected(cfgs, call, p, q, nodes, names) && (!err ==> AllSettled(cfgs, call, p.marks, q.active, nodes))
  {
    if nodes != [] {
      var n := |nodes| - 1;
      var before, last := nodes[..n], nodes[n];
      NamesGrow(nodes);
      SelectorPassKeeps(cfgs, call, idx, p, before, names);
      var (q, err) := SelectorPass(cfgs, call, idx, p, before);
      assert nodes == before + [last];
      assert last.name !in NodeNames(before);
      if !err && last.name !in q.marks && !AnyBad(cfgs) {
        assert Same(p.active, q.active, last.name) && Located(p.active, idx, last.name);
        assert Located(q.active, idx, last.name);
        SelectorStepKeeps(cfgs, call, idx, q, last, names);
        SelectNext(cfgs, call, p, q, SelectorStep(cfgs, call, idx, q, last), before, last, names);
      }
    }
  }

  // ---------- One call ----------

  /** The configurations as they are, without nodes that left. */
  function Pruned(call: Call, p: Place): Place {
    p.(active := Prune(p.active, NodeNames(call.nodes)))
  }

  function IndexOf(p: Place): Where {
    Index(p.active, |p.active|)
  }

  ghost predicate Ready(cfgs: seq<SlbConfig>, call: Call, p: Place) {
    && |p.active| == |cfgs| && DistinctNames(call.nodes) && |call.nodes| < MAX_INT32
    && AtMostOne(Prune(p.active, NodeNames(call.nodes)))
  }

  lemma {:induction false} FewNames(nodes: seq<Node>)
    ensures |NodeNames(nodes)| <= |nodes|
  {
    if nodes != [] {
      NamesGrow(nodes);
      FewNames(nodes[..|nodes| - 1]);
    }
  }

  /** Both passes of one call, put together. */
  lemma Both(cfgs: seq<SlbConfig>, call: Call, p: Place)
    requires Ready(cfgs, call, p)
    ensures var p0 := Pruned(call, p);
            var idx, names := IndexOf(p0), NodeNames(call.nodes);
            var (q, err) := PrimaryPass(cfgs, call, idx, p0, call.nodes);
            && (forall n :: Located(p0.active, idx, n))
            && Passed(p0, q, names) && Within(q.active, names)
            && (forall n :: n !in q.marks ==> Located(q.active, idx, n))
            && var (r, err') := SelectorPass(cfgs, call, idx, q, call.nodes);
               && Selected(cfgs, call, q, r, call.nodes, names)
               && (!err' ==> AllSettled(cfgs, call, q.marks, r.active, call.nodes))
  {
    var p0 := Pruned(call, p);
    var idx, names := IndexOf(p0), NodeNames(call.nodes);
    PruneEdit(p.active, names);
    AllLocated(p0.active);
    PrimaryPassKeeps(cfgs, call, idx, p0, call.nodes);
    var q := PrimaryPass(cfgs, call, idx, p0, call.nodes).0;
    forall i, n | 0 <= i < |q.active| && n in Members(q.active[i])
      ensures n in names
    {
      if n in p0.marks || n !in q.marks {
        assert Same(p0.active, q.active, n);
      }
    }
    forall n | n !in q.marks
      ensures Located(q.active, idx, n)
    {
      assert Same(p0.active, q.active, n) && Located(p0.active, idx, n);
    }
    FewNames(call.nodes);
    SelectorPassKeeps(cfgs, call, idx, q, call.nodes, names);
  }

  /** One call, also one that ends in an error, leaves each node in at most one place, and only listed nodes. */
  lemma ArrangeKeeps(cfgs: seq<SlbConfig>, call: Call, p: Place)
    requires Ready(cfgs, call, p)
    ensures var q := Arrange(cfgs, call, p).0;
            |q.active| == |cfgs| && AtMostOne(q.active) && Within(q.active, NodeNames(call.nodes))
  {
    Both(cfgs, call, p);
  }

  /**
   After a call without error, a listed node is in exactly one place if and only if: it had a mark and was
   somewhere already; or it had none and some configuration takes it by VM set or by selector.
   */
  lemma PlacedExactlyWhen(cfgs: seq<SlbConfig>, call: Call, p: Place, node: Node)
    requires Ready(cfgs, call, p) && node in call.nodes && !Arrange(cfgs, call, p).1
    ensures (exists i: nat :: ExactlyOn(Arrange(cfgs, call, p).0.active, node.name, i)) <==>
            if node.name in p.marks then Somewhere(p.active, node.name)
            else HasPrimary(cfgs, call, node) || Eligible(cfgs, call, node) != []
  {
    Both(cfgs, call, p);
    var p0, n := Pruned(call, p), node.name;
    var idx := IndexOf(p0);
    PruneEdit(p.active, NodeNames(call.nodes));
    PrimaryPassMarks(cfgs, call, idx, p0, call.nodes);
    var q := PrimaryPass(cfgs, call, idx, p0, call.nodes).0;
    var r := Arrange(cfgs, call, p).0;
    OnceIfAtAll(r.active, n);
    if n in p.marks {
      assert Same(p.active, p0.active, n) && Same(p0.active, q.active, n) && Same(q.active, r.active, n);
      SameSomewhere(p.active, r.active, n);
    } else if n in q.marks {
      SameSomewhere(q.active, r.active, n);
    } else if Eligible(cfgs, call, node) != [] {
      var i: nat :| i in Eligible(cfgs, call, node) && On(r.active, n, i);
      assert Somewhere(r.active, n);
    }
  }

  lemma OnceIfAtAll(a: Active, n: string)
    requires AtMostOne(a)
    ensures (exists i: nat :: ExactlyOn(a, n, i)) <==> Somewhere(a, n)
  {
    if Somewhere(a, n) {
      var i: nat :| On(a, n, i);
      assert ExactlyOn(a, n, i);
    }
    if i: nat :| ExactlyOn(a, n, i) {
      assert On(a, n, i);
    }
  }

  lemma SameSomewhere(a: Active, a': Active, n: string)
    requires Same(a, a', n)
    ensures Somewhere(a, n) <==> Somewhere(a', n)
  {
    assert forall i: nat :: On(a, n, i) <==> On(a', n, i);
  }
}
