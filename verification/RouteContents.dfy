/**
 What the route table holds after an update, route by route, and which routes are left over from the other
 IP stack mode (pkg/provider/azure_routes.go).
 */
module RouteContents {
  import opened Text
  import opened Lists
  import opened Routes
  import opened RouteUpdater

  // ---------- Route names ----------

  predicate At(s: string, k: nat) {
    k + 4 <= |s| && s[k..k + 4] == "____"
  }

  ghost predicate Plain(s: string) {
    forall k: nat :: !At(s, k)
  }

  predicate FirstAt(s: string, k: nat) {
    At(s, k) && forall j: nat :: j < k ==> !At(s, j)
  }

  lemma {:induction false} NoSeparator(s: string)
    requires Plain(s)
    ensures Head(s) == s && Parts(s) == 1
  {
    if |s| >= 4 {
      assert !At(s, 0);
      assert s[0..4] == s[..4];
      forall k: nat
        ensures !At(s[1..], k)
      {
        assert !At(s, k + 1);
        assert k + 5 <= |s| ==> s[1..][k..k + 4] == s[k + 1..k + 5];
      }
      NoSeparator(s[1..]);
    }
  }

  lemma {:induction false} AtSeparator(s: string, k: nat)
    requires FirstAt(s, k)
    ensures Head(s) == s[..k] && Parts(s) == 1 + Parts(s[k + 4..])
  {
    assert s[0..4] == s[..4];
    if k > 0 {
      assert !At(s, 0);
      assert s[1..][k - 1..k + 3] == s[k..k + 4];
      forall j: nat | j < k - 1
        ensures !At(s[1..], j)
      {
        assert !At(s, j + 1);
        assert s[1..][j..j + 4] == s[j + 1..j + 5];
      }
      AtSeparator(s[1..], k - 1);
      assert s[1..][k + 3..] == s[k + 4..];
    }
  }

  lemma {:induction false} FindFirst(s: string, k: nat) returns (first: nat)
    requires At(s, k)
    ensures FirstAt(s, first)
  {
    first := k;
    if j: nat :| j < k && At(s, j) {
      first := FindFirst(s, j);
    }
  }

  /** A name has one part exactly when the separator does not occur in it. */
  lemma OnePart(s: string)
    ensures Parts(s) == 1 <==> Plain(s)
  {
    if Plain(s) {
      NoSeparator(s);
    } else {
      var k: nat :| At(s, k);
      var first := FindFirst(s, k);
      AtSeparator(s, first);
      AtLeastOne(s[first + 4..]);
    }
  }

  lemma {:induction false} AtLeastOne(s: string)
    ensures Parts(s) >= 1
  {
    if |s| >= 4 && s[..4] != "____" {
      AtLeastOne(s[1..]);
    }
  }

  /** A name of exactly two parts, of which the first is a node's name. */
  ghost predicate TwoParts(s: string, nodeNames: set<string>) {
    exists k: nat :: FirstAt(s, k) && Plain(s[k + 4..]) && Lower(s[..k]) in nodeNames
  }

  lemma TwoPartsAt(s: string, nodeNames: set<string>, k: nat)
    requires FirstAt(s, k)
    ensures TwoParts(s, nodeNames) <==> Plain(s[k + 4..]) && Lower(s[..k]) in nodeNames
  {
    assert forall j: nat :: FirstAt(s, j) ==> j == k;
  }

  lemma TwoPartsExactly(s: string, nodeNames: set<string>)
    ensures TwoParts(s, nodeNames) <==> Parts(s) == 2 && Lower(Head(s)) in nodeNames
  {
    OnePart(s);
    if !Plain(s) {
      var k: nat :| At(s, k);
      var first := FindFirst(s, k);
      AtSeparator(s, first);
      OnePart(s[first + 4..]);
      TwoPartsAt(s, nodeNames, first);
    }
  }

  /** With dual stack the outdated routes are named like nodes, without it like nodes with one suffix. */
  lemma OutdatedExactly(r: Route, c: Cluster)
    ensures c.Outdated(r) <==>
            if c.dualStack then Plain(r.name) && Lower(r.name) in c.nodeNames else TwoParts(r.name, c.nodeNames)
  {
    OnePart(r.name);
    TwoPartsExactly(r.name, c.nodeNames);
    if Plain(r.name) {
      NoSeparator(r.name);
    }
  }

  /** mapNodeNameToRouteName, of a CIDR stripped of its punctuation. */
  function RouteName(dualStack: bool, node: string, suffix: string): string {
    if dualStack then node + "____" + suffix else node
  }

  lemma PlainWithout(s: string)
    requires '_' !in s
    ensures Plain(s)
  {
    forall k: nat
      ensures !At(s, k)
    {
      if k + 4 <= |s| {
        assert s[k] in s && s[k..k + 4][0] == s[k];
      }
    }
  }

  /** The routes of the cluster's nodes are outdated exactly when they were named in the other mode. */
  lemma OutdatedByMode(c: Cluster, dualStack: bool, node: string, suffix: string, r: Route)
    requires '_' !in node && '_' !in suffix && r.name == RouteName(dualStack, node, suffix)
    ensures c.Outdated(r) <==> Lower(node) in c.nodeNames && dualStack != c.dualStack
    ensures Head(r.name) == node
  {
    PlainWithout(node);
    PlainWithout(suffix);
    NoSeparator(node);
    if dualStack {
      var k, name := |node|, r.name;
      assert name[k..k + 4] == "____" && name[..k] == node && name[k + 4..] == suffix;
      forall j: nat | j < k
        ensures !At(name, j)
      {
        assert name[j] == node[j] && node[j] in node;
        assert j + 4 <= |name| ==> name[j..j + 4][0] == name[j];
      }
      AtSeparator(name, k);
      NoSeparator(suffix);
    }
  }

  // ---------- The operations ----------

  /** The last operation on its route's name, which is compared without regard to case. */
  predicate LastFor(ops: seq<Op>, i: nat) {
    && i < |ops| && !ops[i].UpdateTags?
    && forall j :: i < j < |ops| ==> ops[j].UpdateTags? || !EqualFold(ops[j].route.name, ops[i].route.name)
  }

  lemma {:induction false} LastOpDecides(m: map<string, Route>, ops: seq<Op>, i: nat)
    requires LastFor(ops, i)
    ensures var after, key := OneByOne(m, ops), Lower(ops[i].route.name);
            if ops[i].Add? then key in after && after[key] == ops[i].route else key !in after
  {
    var n := |ops| - 1;
    if i < n {
      assert ops[..n][i] == ops[i];
      LastOpDecides(m, ops[..n], i);
    }
  }

  lemma {:induction false} UnnamedIsKept(m: map<string, Route>, ops: seq<Op>, key: string)
    requires forall i :: 0 <= i < |ops| ==> ops[i].UpdateTags? || Lower(ops[i].route.name) != key
    ensures var after := OneByOne(m, ops); (key in after <==> key in m) && (key in m ==> after[key] == m[key])
  {
    if ops != [] {
      UnnamedIsKept(m, ops[..|ops| - 1], key);
    }
  }

  /** The route is there with its address prefix and next hop. */
  predicate Present(routes: seq<Route>, r: Route) {
    exists x :: x in routes && EqualFold(x.name, r.name) &&
      (x == r ||
       (&& x.properties.Some? && r.properties.Some?
        && EqualFold(x.properties.value.0, r.properties.value.0)
        && EqualFold(x.properties.value.1, r.properties.value.1)))
  }

  predicate Absent(routes: seq<Route>, name: string) {
    forall x :: x in routes ==> !EqualFold(x.name, name)
  }

  predicate DistinctNames(routes: seq<Route>) {
    forall i, j :: 0 <= i < j < |routes| ==> !EqualFold(routes[i].name, routes[j].name)
  }

  /** Every operation has what it asked for, unless a later one names the same route. */
  ghost predicate Answered(routes: seq<Route>, ops: seq<Op>) {
    forall i: nat :: LastFor(ops, i) ==>
      if ops[i].Add? then Present(routes, ops[i].route) else Absent(routes, ops[i].route.name)
  }

  lemma AlikeIsAnswered(routes: seq<Route>, now: map<string, Route>, m: map<string, Route>, ops: seq<Op>)
    requires Represents(routes, now) && Alike(now, OneByOne(m, ops))
    ensures Answered(routes, ops)
  {
    forall i: nat | LastFor(ops, i)
      ensures if ops[i].Add? then Present(routes, ops[i].route) else Absent(routes, ops[i].route.name)
    {
      LastOpDecides(m, ops, i);
      var key := Lower(ops[i].route.name);
      if ops[i].Add? {
        assert key in now && now[key] in routes && EqualFold(now[key].name, ops[i].route.name);
      } else {
        assert forall x :: x in routes ==> Key(x) in now;
      }
    }
  }

  /** After an update that could read and write the table, every waiter has what it asked for. */
  lemma UpdateAnswers(s: St, t: Table, c: Cluster, r: Remote)
    requires s.queue != [] && Created(s, r) == Some(t) && s.Fresh(r) && ReadError(s, r).None?
    requires DistinctNames(t.routes) && (r.write.None? || r.applied)
    ensures var after := AfterUpdate(s, c, r).table; after.Some? && Answered(after.value.routes, s.queue)
  {
    assert Unique(t.routes);
    assert Seen(s, r) == Some(t);
    var m := HasMap(t.routes);
    var after := AfterUpdate(s, c, r).table.value;
    var want := OneByOne(Cleaned(m, c.Keeps), s.queue);
    if Process(t.routes, c, s.queue).dirty {
      WrittenIsWanted(t, m, c, s.queue);
      AlikeIsAnswered(after.routes, want, Cleaned(m, c.Keeps), s.queue);
    } else {
      SkippedWriteIsRight(t.routes, m, c, s.queue);
      AlikeIsAnswered(t.routes, m, Cleaned(m, c.Keeps), s.queue);
    }
  }

  /** Routes of names that no operation has go exactly when they are outdated, and are as they were otherwise. */
  lemma OthersAfterBatch(routes: seq<Route>, c: Cluster, ops: seq<Op>, x: Route)
    requires DistinctNames(routes) && x in routes
    requires forall i :: 0 <= i < |ops| ==> ops[i].UpdateTags? || !EqualFold(ops[i].route.name, x.name)
    ensures x in Process(routes, c, ops).routes <==> !c.Outdated(x)
  {
    assert Unique(routes);
    var m := HasMap(routes);
    var key, cleaned := Lower(x.name), Cleaned(m, c.Keeps);
    assert key in m && m[key] == x;
    BatchEqualsOneByOne(routes, m, c, ops);
    UnnamedIsKept(cleaned, ops, key);
  }

  // ---------- Tags ----------

  predicate LastTags(ops: seq<Op>, i: nat) {
    i < |ops| && ops[i].UpdateTags? && forall j :: i < j < |ops| ==> !ops[j].UpdateTags?
  }

  lemma {:induction false} TagsOfBatch(routes: seq<Route>, c: Cluster, ops: seq<Op>)
    ensures forall i: nat :: LastTags(ops, i) ==>
              Process(routes, c, ops).tags == Some(ops[i].tags) && Process(routes, c, ops).dirty
    ensures (forall i :: 0 <= i < |ops| ==> !ops[i].UpdateTags?) ==> Process(routes, c, ops).tags.None?
  {
    if ops != [] {
      var n := |ops| - 1;
      TagsOfBatch(routes, c, ops[..n]);
      forall i: nat | LastTags(ops, i) && i < n
        ensures LastTags(ops[..n], i) && ops[..n][i] == ops[i]
      {
      }
    }
  }

  /** The table gets the tags of the last operation that sets any, and keeps its own if there is none. */
  lemma TagsAfterUpdate(s: St, t: Table, c: Cluster, r: Remote)
    requires s.queue != [] && Created(s, r) == Some(t) && s.Fresh(r) && ReadError(s, r).None?
    requires r.write.None? || r.applied
    ensures var after := AfterUpdate(s, c, r).table;
            && after.Some?
            && (forall i: nat :: LastTags(s.queue, i) ==> after.value.tags == s.queue[i].tags)
            && ((forall i :: 0 <= i < |s.queue| ==> !s.queue[i].UpdateTags?) ==> after.value.tags == t.tags)
  {
    assert Seen(s, r) == Some(t);
    TagsOfBatch(t.routes, c, s.queue);
  }

  // ---------- When nothing is written ----------

  /** The table has what the operation asks for. */
  predicate Asks(routes: seq<Route>, op: Op) {
    match op
    case UpdateTags(_, _) => false
    case Add(_, r) => exists x :: x in routes && EqualFold(x.name, r.name) && Agree(x, r)
    case Delete(_, r) => Absent(routes, r.name)
  }

  lemma AsksStep(routes: seq<Route>, m: map<string, Route>, b: Batch, now: map<string, Route>, op: Op)
    requires Represents(routes, m) && Represents(b.routes, now) && Alike(m, now) && Asks(routes, op)
    ensures !Dirties(b.routes, op)
  {
    var key := Key(op.route);
    FirstIsMember(b.routes, key);
    if op.Add? {
      var x :| x in routes && EqualFold(x.name, op.route.name) && Agree(x, op.route);
      assert key in m && m[key] == x && key in now;
    } else {
      assert key !in m by {
        assert key in m ==> m[key] in routes && Key(m[key]) == key;
      }
    }
  }

  /** A batch that asks for nothing new, on a table without outdated routes, is not written. */
  lemma {:induction false} NoNeedlessWrite(routes: seq<Route>, m: map<string, Route>, c: Cluster, ops: seq<Op>)
    requires Represents(routes, m) && forall r :: r in routes ==> !c.Outdated(r)
    requires forall i :: 0 <= i < |ops| ==> Asks(routes, ops[i])
    ensures !Process(routes, c, ops).dirty
  {
    if ops == [] {
      FilterMembers(routes, c.Keeps);
    } else {
      var n := |ops| - 1;
      NoNeedlessWrite(routes, m, c, ops[..n]);
      SkippedWriteIsRight(routes, m, c, ops[..n]);
      BatchEqualsOneByOne(routes, m, c, ops[..n]);
      AsksStep(routes, m, Process(routes, c, ops[..n]), OneByOne(Cleaned(m, c.Keeps), ops[..n]), ops[n]);
    }
  }

  /** A failed read is told to every waiter, and neither the table nor the copy changes. */
  lemma ReadFailureIsTold(s: St, c: Cluster, r: Remote, i: nat)
    requires (s.cached.None? || r.expired) && r.get.Some? && i < |s.queue|
    ensures var after := AfterUpdate(s, c, r);
            && after.table == s.table && after.cached == s.cached && after.queue == []
            && |after.results| == |s.results| + |s.queue|
            && after.results[|s.results| + i] == Result(s.queue[i].ticket, r.get)
  {
    assert AllResults(s.queue, r.get)[i] == Result(s.queue[i].ticket, r.get);
  }

  /** So is a failed creation of a missing table, and a failed read of the one that was created. */
  lemma CreateFailureIsTold(s: St, c: Cluster, r: Remote, i: nat)
    requires (s.cached.None? || r.expired) && r.get.None? && s.table.None? && i < |s.queue|
    requires r.create.Some? || r.again.Some?
    ensures var after := AfterUpdate(s, c, r);
            && after.table == (if r.create.None? || r.created then Some(Table([], map[])) else None)
            && after.queue == [] && |after.results| == |s.results| + |s.queue|
            && after.results[|s.results| + i] ==
               Result(s.queue[i].ticket, if r.create.Some? then r.create else r.again)
  {
    var error := if r.create.Some? then r.create else r.again;
    assert AllResults(s.queue, error)[i] == Result(s.queue[i].ticket, error);
  }
}
