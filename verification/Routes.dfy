/**
 The delayed route updater (pkg/provider/azure_routes.go): queued operations are applied in one batch to the
 list of routes, after routes left from the other IP stack mode are cleaned up.
 */
module Routes {
  import opened Text
  import opened Lists

  /** properties is None when the Go pointer is nil: an address prefix and a next hop. */
  datatype Route = Route(name: string, properties: Option<(string, string)>)

  datatype Op =
    | Add(ticket: nat, route: Route)
    | Delete(ticket: nat, route: Route)
    | UpdateTags(ticket: nat, tags: map<string, string>)

  function Key(r: Route): string {
    Lower(r.name)
  }

  const SEPARATOR := "____"

  /** strings.Split on the separator: the part before its first occurrence, and how many parts there are. */
  function Head(s: string): string {
    if |s| < |SEPARATOR| then s
    else if s[..|SEPARATOR|] == SEPARATOR then ""
    else [s[0]] + Head(s[1..])
  }

  function Parts(s: string): nat {
    if |s| < |SEPARATOR| then 1
    else if s[..|SEPARATOR|] == SEPARATOR then 1 + Parts(s[|SEPARATOR|..])
    else Parts(s[1..])
  }

  /** Names of the cluster's nodes, and whether IPv6 dual stack is enabled. */
  datatype Cluster = Cluster(nodeNames: set<string>, dualStack: bool) {
    predicate Outdated(r: Route) {
      Lower(Head(r.name)) in nodeNames && Parts(r.name) == if dualStack then 1 else 2
    }

    predicate Keeps(r: Route) {
      !Outdated(r)
    }
  }

  // ---------- The batch on lists ----------

  /** Names are unique without regard to case. */
  predicate Unique(routes: seq<Route>) {
    forall i, j :: 0 <= i < j < |routes| ==> Key(routes[i]) != Key(routes[j])
  }

  function RemoveFirst(routes: seq<Route>, key: string): seq<Route> {
    if routes == [] then []
    else if Key(routes[0]) == key then routes[1..]
    else [routes[0]] + RemoveFirst(routes[1..], key)
  }

  function First(routes: seq<Route>, key: string): Option<Route> {
    if routes == [] then None
    else if Key(routes[0]) == key then Some(routes[0])
    else First(routes[1..], key)
  }

  function Apply(routes: seq<Route>, op: Op): seq<Route> {
    match op
    case UpdateTags(_, _) => routes
    case Add(_, r) => RemoveFirst(routes, Key(r)) + [r]
    case Delete(_, r) => RemoveFirst(routes, Key(r))
  }

  /** The existing route says the same as the wanted one. */
  predicate Agree(a: Route, b: Route) {
    && a.properties.Some? && b.properties.Some?
    && EqualFold(a.properties.value.0, b.properties.value.0)
    && EqualFold(a.properties.value.1, b.properties.value.1)
  }

  /** The operation makes a write necessary. */
  predicate Dirties(routes: seq<Route>, op: Op) {
    match op
    case UpdateTags(_, _) => true
    case Add(_, r) => First(routes, Key(r)).None? || !Agree(First(routes, Key(r)).value, r)
    case Delete(_, r) => First(routes, Key(r)).Some?
  }

  /** What a batch computes: the routes, whether to write, whether only tags change, and the last tags given. */
  datatype Batch = Batch(routes: seq<Route>, dirty: bool, onlyTags: bool, tags: Option<map<string, string>>)

  function Start(routes: seq<Route>, c: Cluster): Batch {
    var cleaned := Filter(routes, c.Keeps);
    Batch(cleaned, cleaned != routes, cleaned == routes, None)
  }

  function Next(b: Batch, op: Op): Batch {
    Batch(
      Apply(b.routes, op), b.dirty || Dirties(b.routes, op), b.onlyTags && op.UpdateTags?,
      if op.UpdateTags? then Some(op.tags) else b.tags)
  }

  function Process(routes: seq<Route>, c: Cluster, ops: seq<Op>): Batch {
    if ops == [] then Start(routes, c)
    else Next(Process(routes, c, ops[..|ops| - 1]), ops[|ops| - 1])
  }

  // ---------- The batch on names ----------

  /** The list has unique names and the map is its name-to-route map. */
  predicate Represents(routes: seq<Route>, m: map<string, Route>) {
    && Unique(routes)
    && (forall r :: r in routes ==> Key(r) in m && m[Key(r)] == r)
    && (forall k :: k in m ==> m[k] in routes && Key(m[k]) == k)
  }

  /** One operation on its own. */
  function ApplyToMap(m: map<string, Route>, op: Op): map<string, Route> {
    match op
    case UpdateTags(_, _) => m
    case Add(_, r) => m[Key(r) := r]
    case Delete(_, r) => m - {Key(r)}
  }

  function OneByOne(m: map<string, Route>, ops: seq<Op>): map<string, Route> {
    if ops == [] then m
    else ApplyToMap(OneByOne(m, ops[..|ops| - 1]), ops[|ops| - 1])
  }

  function Cleaned(m: map<string, Route>, keep: Route -> bool): map<string, Route> {
    map k | k in m && keep(m[k]) :: m[k]
  }

  /** Every list with unique names has its map. */
  lemma {:induction false} HasMap(routes: seq<Route>) returns (m: map<string, Route>)
    requires Unique(routes)
    ensures Represents(routes, m)
  {
    m := map[];
    if routes != [] {
      var n := |routes| - 1;
      var before := HasMap(routes[..n]);
      assert routes == routes[..n] + [routes[n]];
      AppendIsMap(routes[..n], before, routes[n]);
      m := before[Key(routes[n]) := routes[n]];
    }
  }

  lemma AppendIsMap(routes: seq<Route>, m: map<string, Route>, r: Route)
    requires Represents(routes, m)
    requires Unique(routes + [r]) || Key(r) !in m
    ensures Represents(routes + [r], m[Key(r) := r])
  {
    var all := routes + [r];
    if Key(r) !in m {
      forall i, j | 0 <= i < j < |all|
        ensures Key(all[i]) != Key(all[j])
      {
        assert all[i] in routes;
      }
    } else {
      assert forall i :: 0 <= i < |routes| ==> Key(all[i]) != Key(all[|routes|]);
    }
    assert forall x :: x in routes ==> Key(x) != Key(r) by {
      forall x | x in routes
        ensures Key(x) != Key(r)
      {
        var i :| 0 <= i < |routes| && routes[i] == x;
        assert all[i] == x && all[|routes|] == r;
      }
    }
  }

  lemma UniqueCons(routes: seq<Route>, r: Route, rest: seq<Route>)
    requires routes == [r] + rest
    ensures Unique(routes) <==> Unique(rest) && forall x :: x in rest ==> Key(x) != Key(r)
  {
    assert forall i :: 0 <= i < |rest| ==> routes[i + 1] == rest[i];
    if Unique(routes) {
      assert forall i :: 1 <= i < |routes| ==> Key(routes[0]) != Key(routes[i]);
    } else {
      var i, j :| 0 <= i < j < |routes| && Key(routes[i]) == Key(routes[j]);
      assert routes[j] == rest[j - 1];
      assert i > 0 ==> routes[i] == rest[i - 1];
    }
  }

  lemma {:induction false} UniqueFilter(routes: seq<Route>, keep: Route -> bool)
    requires Unique(routes)
    ensures Unique(Filter(routes, keep))
  {
    if routes != [] {
      var r, rest := routes[0], routes[1..];
      UniqueCons(routes, r, rest);
      UniqueFilter(rest, keep);
      FilterMembers(rest, keep);
      UniqueCons([r] + Filter(rest, keep), r, Filter(rest, keep));
    }
  }

  lemma FilterIsMap(routes: seq<Route>, m: map<string, Route>, keep: Route -> bool)
    requires Represents(routes, m)
    ensures Represents(Filter(routes, keep), Cleaned(m, keep))
  {
    UniqueFilter(routes, keep);
    FilterMembers(routes, keep);
  }

  datatype Other = Other(key: string) {
    predicate Keeps(r: Route) {
      Key(r) != key
    }
  }

  /** With unique names, removing the first match is dropping the name. */
  lemma {:induction false} RemoveIsFilter(routes: seq<Route>, key: string)
    requires Unique(routes)
    ensures RemoveFirst(routes, key) == Filter(routes, Other(key).Keeps)
  {
    if routes != [] {
      var rest := routes[1..];
      RemoveIsFilter(rest, key);
      if Key(routes[0]) == key {
        assert forall i :: 0 <= i < |rest| ==> rest[i] == routes[i + 1];
        FilterMembers(rest, Other(key).Keeps);
      }
    }
  }

  lemma {:induction false} FirstIsMember(routes: seq<Route>, key: string)
    ensures First(routes, key).Some? ==> First(routes, key).value in routes && Key(First(routes, key).value) == key
    ensures First(routes, key).None? ==> forall r :: r in routes ==> Key(r) != key
  {
    if routes != [] {
      FirstIsMember(routes[1..], key);
      assert routes == [routes[0]] + routes[1..];
    }
  }

  lemma RemoveIsMap(routes: seq<Route>, m: map<string, Route>, key: string)
    requires Represents(routes, m)
    ensures Represents(RemoveFirst(routes, key), m - {key})
  {
    RemoveIsFilter(routes, key);
    FilterIsMap(routes, m, Other(key).Keeps);
    assert Cleaned(m, Other(key).Keeps) == m - {key};
  }

  lemma ApplyIsMap(routes: seq<Route>, m: map<string, Route>, op: Op)
    requires Represents(routes, m)
    ensures Represents(Apply(routes, op), ApplyToMap(m, op))
  {
    match op {
      case UpdateTags(_, _) =>
      case Delete(_, r) => RemoveIsMap(routes, m, Key(r));
      case Add(_, r) =>
        RemoveIsMap(routes, m, Key(r));
        AppendIsMap(RemoveFirst(routes, Key(r)), m - {Key(r)}, r);
        assert (m - {Key(r)})[Key(r) := r] == m[Key(r) := r];
    }
  }

  /** A batch gives the same name-to-route map as one operation at a time after cleanup, and names stay unique. */
  lemma {:induction false} BatchEqualsOneByOne(routes: seq<Route>, m: map<string, Route>, c: Cluster, ops: seq<Op>)
    requires Represents(routes, m)
    ensures Represents(Process(routes, c, ops).routes, OneByOne(Cleaned(m, c.Keeps), ops))
  {
    if ops == [] {
      FilterIsMap(routes, m, c.Keeps);
    } else {
      var k := |ops| - 1;
      BatchEqualsOneByOne(routes, m, c, ops[..k]);
      ApplyIsMap(Process(routes, c, ops[..k]).routes, OneByOne(Cleaned(m, c.Keeps), ops[..k]), ops[k]);
    }
  }

  // ---------- Routes that are not concerned ----------

  datatype Untouched = Untouched(c: Cluster, ops: seq<Op>) {
    predicate Holds(r: Route) {
      c.Keeps(r) && forall i :: 0 <= i < |ops| && !ops[i].UpdateTags? ==> Key(ops[i].route) != Key(r)
    }
  }

  lemma ApplyKeepsOthers(routes: seq<Route>, op: Op, others: Route -> bool)
    requires Unique(routes) && (!op.UpdateTags? ==> forall r :: others(r) ==> Key(r) != Key(op.route))
    ensures Filter(Apply(routes, op), others) == Filter(routes, others)
  {
    if !op.UpdateTags? {
      var key := Key(op.route);
      RemoveIsFilter(routes, key);
      FilterFilter(routes, Other(key).Keeps, others);
      if op.Add? {
        FilterSnoc(RemoveFirst(routes, key), op.route, others);
        assert !others(op.route);
        assert Filter(routes, others) + [] == Filter(routes, others);
      }
    }
  }

  /** Routes neither named nor outdated keep their content and order. */
  lemma {:induction false} UntouchedRoutesKept(routes: seq<Route>, c: Cluster, ops: seq<Op>, k: nat)
    requires Unique(routes) && k <= |ops|
    ensures Unique(Process(routes, c, ops[..k]).routes)
    ensures Filter(Process(routes, c, ops[..k]).routes, Untouched(c, ops).Holds) == Filter(routes, Untouched(c, ops).Holds)
  {
    if k == 0 {
      UniqueFilter(routes, c.Keeps);
      FilterFilter(routes, c.Keeps, Untouched(c, ops).Holds);
    } else {
      UntouchedRoutesKept(routes, c, ops, k - 1);
      assert ops[..k][..k - 1] == ops[..k - 1];
      var before := Process(routes, c, ops[..k - 1]).routes;
      var m := HasMap(before);
      ApplyIsMap(before, m, ops[k - 1]);
      ApplyKeepsOthers(before, ops[k - 1], Untouched(c, ops).Holds);
    }
  }

  // ---------- When nothing is written ----------

  /** The two maps have the same names, and the same prefixes and next hops up to case. */
  predicate Alike(m: map<string, Route>, m': map<string, Route>) {
    m.Keys == m'.Keys && forall k :: k in m ==> m[k] == m'[k] || Agree(m[k], m'[k])
  }

  lemma AlikeStep(m: map<string, Route>, now: map<string, Route>, routes: seq<Route>, op: Op)
    requires Represents(routes, now) && Alike(m, now) && !Dirties(routes, op)
    ensures Alike(m, ApplyToMap(now, op))
  {
    var key := Key(op.route);
    FirstIsMember(routes, key);
    if op.Add? {
      assert Agree(now[key], op.route);
      assert Alike(m, now[key := op.route]);
    } else {
      assert key !in now;
      assert now - {key} == now;
    }
  }

  /** If the batch is not written, the table already had the routes that it asks for. */
  lemma {:induction false} SkippedWriteIsRight(routes: seq<Route>, m: map<string, Route>, c: Cluster, ops: seq<Op>)
    requires Represents(routes, m) && !Process(routes, c, ops).dirty
    ensures Alike(m, OneByOne(Cleaned(m, c.Keeps), ops))
  {
    if ops == [] {
      FilterMembers(routes, c.Keeps);
      assert Cleaned(m, c.Keeps) == m;
    } else {
      var k := |ops| - 1;
      SkippedWriteIsRight(routes, m, c, ops[..k]);
      BatchEqualsOneByOne(routes, m, c, ops[..k]);
      AlikeStep(m, OneByOne(Cleaned(m, c.Keeps), ops[..k]), Process(routes, c, ops[..k]).routes, ops[k]);
    }
  }

  /** If only tags are written, the routes that go with them are the ones that were read. */
  lemma {:induction false} OnlyTagsKeepsRoutes(routes: seq<Route>, c: Cluster, ops: seq<Op>)
    requires Process(routes, c, ops).onlyTags
    ensures Process(routes, c, ops).routes == routes
  {
    if ops != [] {
      OnlyTagsKeepsRoutes(routes, c, ops[..|ops| - 1]);
    }
  }
}
