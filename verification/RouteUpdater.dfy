/**
 The route updater with its queue, its waiters, the remote table and the cached copy it reads
 (pkg/provider/azure_routes.go, pkg/provider/routetable/repo.go).
 */
module RouteUpdater {
  import opened Text
  import opened Lists
  import opened Routes

  datatype Table = Table(routes: seq<Route>, tags: map<string, string>)

  /** What a waiter receives. */
  datatype Result = Result(ticket: nat, error: Option<string>)

  /**
   How the calls of one update end: whether the cached copy has expired, reading, creating a missing table,
   reading again, and writing.  A creation or a write may be applied although it is reported as failed.
   */
  datatype Remote = Remote(
    expired: bool, get: Option<string>, create: Option<string>, created: bool, again: Option<string>,
    write: Option<string>, applied: bool)

  /** A table that does not exist is not cached. */
  datatype St = St(queue: seq<Op>, table: Option<Table>, cached: Option<Table>, results: seq<Result>) {
    /** The read is answered from the cache. */
    predicate Hit(r: Remote) {
      cached.Some? && !r.expired
    }

    /** What is read is what the remote table says. */
    predicate Fresh(r: Remote) {
      Hit(r) ==> cached == table
    }
  }

  datatype Event = Enqueue(op: Op) | Update(c: Cluster, remote: Remote)

  function AllResults(ops: seq<Op>, error: Option<string>): seq<Result> {
    seq(|ops|, i requires 0 <= i < |ops| => Result(ops[i].ticket, error))
  }

  /** The error that every waiter of the batch is told: that of reading or creating the table. */
  function ReadError(s: St, r: Remote): Option<string> {
    if s.Hit(r) then None
    else if r.get.Some? then r.get
    else if s.table.Some? then None
    else if r.create.Some? then r.create
    else r.again
  }

  /** The remote table before the batch is written; a missing one is created unless the read is a hit. */
  function Created(s: St, r: Remote): Option<Table> {
    if !s.Hit(r) && r.get.None? && s.table.None? && (r.create.None? || r.created) then Some(Table([], map[]))
    else s.table
  }

  /** The table that the batch works on. */
  function Seen(s: St, r: Remote): Option<Table> {
    if s.Hit(r) then s.cached else Created(s, r)
  }

  function Written(t: Table, c: Cluster, ops: seq<Op>): Table {
    var b := Process(t.routes, c, ops);
    Table(if b.onlyTags then t.routes else b.routes, if b.tags.Some? then b.tags.value else t.tags)
  }

  /** The repository drops its copy only after a write that is reported as successful. */
  function AfterUpdate(s: St, c: Cluster, r: Remote): St {
    if s.queue == [] then s
    else
      var error, table, seen := ReadError(s, r), Created(s, r), Seen(s, r);
      var results := s.results + AllResults(s.queue, error);
      if error.Some? || seen.None? then
        St([], table, if r.get.Some? then s.cached else None, results)
      else if !Process(seen.value.routes, c, s.queue).dirty then
        St([], table, seen, results)
      else
        St([],
           if r.write.None? || r.applied then Some(Written(seen.value, c, s.queue)) else table,
           if r.write.None? then None else seen,
           results)
  }

  function Step(s: St, e: Event): St {
    match e
    case Enqueue(op) => s.(queue := s.queue + [op])
    case Update(c, r) => AfterUpdate(s, c, r)
  }

  function Run(s: St, es: seq<Event>): St {
    if es == [] then s else Step(Run(s, es[..|es| - 1]), es[|es| - 1])
  }

  // ---------- Over whole runs ----------

  function Waiting(ops: seq<Op>): seq<nat> {
    seq(|ops|, i requires 0 <= i < |ops| => ops[i].ticket)
  }

  function Told(results: seq<Result>): seq<nat> {
    seq(|results|, i requires 0 <= i < |results| => results[i].ticket)
  }

  function Arrived(es: seq<Event>): seq<nat> {
    if es == [] then []
    else
      var n := |es| - 1;
      Arrived(es[..n]) + Arrival(es[n])
  }

  function Arrival(e: Event): seq<nat> {
    if e.Enqueue? then [e.op.ticket] else []
  }

  lemma StepTells(s: St, e: Event)
    ensures var t := Step(s, e);
            Told(t.results) + Waiting(t.queue) == Told(s.results) + Waiting(s.queue) + Arrival(e)
  {
    var told, waiting := Told(s.results), Waiting(s.queue);
    match e {
      case Enqueue(op) =>
        assert Waiting(s.queue + [op]) == waiting + [op.ticket];
      case Update(c, r) =>
        assert Told(s.results + AllResults(s.queue, ReadError(s, r))) == told + waiting;
    }
  }

  /** Every operation gets exactly one result, in the order of arrival, unless it still waits. */
  lemma {:induction false} OneResultEach(s: St, es: seq<Event>)
    ensures var t := Run(s, es);
            Told(t.results) + Waiting(t.queue) == Told(s.results) + Waiting(s.queue) + Arrived(es)
  {
    if es != [] {
      var n := |es| - 1;
      OneResultEach(s, es[..n]);
      StepTells(Run(s, es[..n]), es[n]);
      var start := Told(s.results) + Waiting(s.queue);
      assert start + (Arrived(es[..n]) + Arrival(es[n])) == start + Arrived(es[..n]) + Arrival(es[n]);
    }
  }

  predicate UniqueTable(table: Option<Table>) {
    table.Some? ==> Unique(table.value.routes)
  }

  /** Route names stay unique over every run. */
  lemma {:induction false} NamesStayUnique(s: St, es: seq<Event>)
    requires UniqueTable(s.table) && UniqueTable(s.cached)
    ensures UniqueTable(Run(s, es).table) && UniqueTable(Run(s, es).cached)
  {
    if es != [] {
      var n := |es| - 1;
      NamesStayUnique(s, es[..n]);
      var t, e := Run(s, es[..n]), es[n];
      if e.Update? {
        UpdateStaysUnique(t, e.c, e.remote);
      }
    }
  }

  lemma UpdateStaysUnique(s: St, c: Cluster, r: Remote)
    requires UniqueTable(s.table) && UniqueTable(s.cached)
    ensures UniqueTable(AfterUpdate(s, c, r).table) && UniqueTable(AfterUpdate(s, c, r).cached)
  {
    var seen := Seen(s, r);
    assert UniqueTable(seen);
    if seen.Some? {
      var m := HasMap(seen.value.routes);
      WrittenIsWanted(seen.value, m, c, s.queue);
    }
  }

  // ---------- What an update does to the table ----------

  lemma OneMap(routes: seq<Route>, m: map<string, Route>, m': map<string, Route>)
    requires Represents(routes, m) && Represents(routes, m')
    ensures m == m'
  {
    assert forall k :: k in m ==> m[k] in routes && Key(m[k]) == k && k in m';
    assert forall k :: k in m' ==> m'[k] in routes && Key(m'[k]) == k && k in m;
  }

  /** What is written is the map that the operations ask for, seen from the table that was read. */
  lemma WrittenIsWanted(t: Table, m: map<string, Route>, c: Cluster, ops: seq<Op>)
    requires Represents(t.routes, m)
    ensures Represents(Written(t, c, ops).routes, OneByOne(Cleaned(m, c.Keeps), ops))
  {
    BatchEqualsOneByOne(t.routes, m, c, ops);
    if Process(t.routes, c, ops).onlyTags {
      OnlyTagsKeepsRoutes(t.routes, c, ops);
    }
  }

  /**
   After an update that read the content of the remote table, which it may have created, all waiters are told
   of success, and the table has the routes that they asked for if and only if the write was applied or they
   were there already.
   */
  lemma RightExactlyWhen(s: St, t: Table, m: map<string, Route>, m': map<string, Route>, c: Cluster, r: Remote)
    requires s.queue != [] && Created(s, r) == Some(t) && s.Fresh(r) && ReadError(s, r).None?
    requires Represents(t.routes, m)
    requires var after := AfterUpdate(s, c, r).table; after.Some? && Represents(after.value.routes, m')
    ensures var want := OneByOne(Cleaned(m, c.Keeps), s.queue);
            && AfterUpdate(s, c, r).results == s.results + AllResults(s.queue, None)
            && (Alike(m', want) <==> r.write.None? || r.applied || Alike(m, want))
  {
    var after := AfterUpdate(s, c, r).table.value;
    assert Seen(s, r) == Some(t);
    if !Process(t.routes, c, s.queue).dirty {
      OneMap(t.routes, m, m');
      SkippedWriteIsRight(t.routes, m, c, s.queue);
    } else if r.write.None? || r.applied {
      WrittenIsWanted(t, m, c, s.queue);
      OneMap(after.routes, m', OneByOne(Cleaned(m, c.Keeps), s.queue));
    } else {
      OneMap(t.routes, m, m');
    }
  }

  /** A write that fails: the waiter for a new route is told of success, and the table does not have it. */
  lemma FailedWriteIsNotReported(route: Route, tags: map<string, string>, ticket: nat, c: Cluster, error: string)
    ensures var s := St([Add(ticket, route)], Some(Table([], tags)), None, []);
            var after := AfterUpdate(s, c, Remote(false, None, None, false, None, Some(error), false));
            after.table == Some(Table([], tags)) && after.results == [Result(ticket, None)]
  {
    var ops := [Add(ticket, route)];
    assert ops[..0] == [];
    assert Process([], c, ops).dirty;
  }

  // ---------- The cached copy ----------

  predicate Coherent(s: St) {
    s.cached.Some? ==> s.cached == s.table
  }

  /** A write that was applied, was reported as failed, and changed the table. */
  predicate Ambiguous(s: St, c: Cluster, r: Remote) {
    && s.queue != [] && ReadError(s, r).None? && Seen(s, r).Some?
    && Process(Seen(s, r).value.routes, c, s.queue).dirty
    && r.write.Some? && r.applied
    && Written(Seen(s, r).value, c, s.queue) != Seen(s, r).value
  }

  /** A copy that agrees with the table agrees after an update if and only if the write was not ambiguous. */
  lemma CoherentExactlyWhen(s: St, c: Cluster, r: Remote)
    requires Coherent(s)
    ensures Coherent(AfterUpdate(s, c, r)) <==> !Ambiguous(s, c, r)
  {
    assert s.Hit(r) ==> s.cached == s.table;
  }

  ghost predicate NeverAmbiguous(s: St, es: seq<Event>) {
    es != [] ==>
      && NeverAmbiguous(s, es[..|es| - 1])
      && (es[|es| - 1].Update? ==> !Ambiguous(Run(s, es[..|es| - 1]), es[|es| - 1].c, es[|es| - 1].remote))
  }

  /** Over every run without such a write, every update works on what the remote table says. */
  lemma {:induction false} ReadsAreFresh(s: St, es: seq<Event>, r: Remote)
    requires Coherent(s) && NeverAmbiguous(s, es)
    ensures Coherent(Run(s, es)) && Run(s, es).Fresh(r)
  {
    if es != [] {
      var n := |es| - 1;
      ReadsAreFresh(s, es[..n], r);
      match es[n] {
        case Enqueue(_) =>
        case Update(c, remote) => CoherentExactlyWhen(Run(s, es[..n]), c, remote);
      }
    }
  }

  /** So, after every run without such a write, an update is right exactly when its write was applied or not needed. */
  lemma RunRightExactlyWhen(
      s: St, es: seq<Event>, t: Table, m: map<string, Route>, m': map<string, Route>, c: Cluster, r: Remote)
    requires Coherent(s) && NeverAmbiguous(s, es)
    requires var now := Run(s, es);
             && now.queue != [] && Created(now, r) == Some(t) && ReadError(now, r).None?
             && Represents(t.routes, m)
    requires var after := AfterUpdate(Run(s, es), c, r).table; after.Some? && Represents(after.value.routes, m')
    ensures var want := OneByOne(Cleaned(m, c.Keeps), Run(s, es).queue);
            Alike(m', want) <==> r.write.None? || r.applied || Alike(m, want)
  {
    ReadsAreFresh(s, es, r);
    RightExactlyWhen(Run(s, es), t, m, m', c, r);
  }

  /** After an ambiguous write of a route, deleting it is skipped as long as the copy has not expired. */
  lemma StaleCopyKeepsRoute(route: Route, tags: map<string, string>, i: nat, j: nat, c: Cluster, error: string)
    ensures var s := St([Add(i, route)], Some(Table([], tags)), None, []);
            var added := AfterUpdate(s, c, Remote(false, None, None, false, None, Some(error), true));
            var deleted := AfterUpdate(
                             added.(queue := [Delete(j, route)]), c, Remote(false, None, None, false, None, None, true));
            && deleted.table == Some(Table([route], tags))
            && deleted.results == [Result(i, None), Result(j, None)]
  {
    var add, delete := [Add(i, route)], [Delete(j, route)];
    assert add[..0] == [] && delete[..0] == [];
    assert Process([], c, add) == Batch([route], true, false, None);
    assert Process([], c, delete) == Batch([], false, false, None);
  }

  // ---------- The updater ----------

  class DelayedRouteUpdater {
    var routesToUpdate: seq<Op>
    /** The remote table, the repository's copy of it, and what waiters received. */
    var table: Option<Table>
    var cached: Option<Table>
    var results: seq<Result>

    ghost function View(): St
      reads this
    {
      St(routesToUpdate, table, cached, results)
    }

    constructor (table: Option<Table>)
      ensures View() == St([], table, None, [])
    {
      this.table := table;
      routesToUpdate, cached, results := [], None, [];
    }

    method AddOperation(op: Op)
      modifies this
      ensures View() == Step(old(View()), Enqueue(op))
    {
      routesToUpdate := routesToUpdate + [op];
    }

    method Notify(error: Option<string>)
      modifies this`routesToUpdate, this`results
      ensures routesToUpdate == [] && results == old(results) + AllResults(old(routesToUpdate), error)
    {
      for k := 0 to |routesToUpdate|
        invariant routesToUpdate == old(routesToUpdate)
        invariant results == old(results) + AllResults(routesToUpdate[..k], error)
      {
        results := results + [Result(routesToUpdate[k].ticket, error)];
      }
      assert routesToUpdate[..|routesToUpdate|] == routesToUpdate;
      routesToUpdate := [];
    }

    /** The repository's Get with the default read type. */
    method Get(expired: bool, failure: Option<string>) returns (t: Option<Table>, error: Option<string>)
      modifies this`cached
      ensures error == if old(cached).Some? && !expired then None else failure
      ensures error.Some? ==> cached == old(cached)
      ensures error.None? ==> t == cached && cached == if old(cached).Some? && !expired then old(cached) else table
    {
      if cached.Some? && !expired {
        return cached, None;
      }
      if failure.Some? {
        return None, failure;
      }
      cached := table;
      return table, None;
    }

    /** The repository's CreateOrUpdate: a failure is returned before the copy is dropped. */
    method CreateOrUpdate(t: Table, failure: Option<string>, applied: bool) returns (error: Option<string>)
      modifies this`table, this`cached
      ensures error == failure
      ensures table == if failure.None? || applied then Some(t) else old(table)
      ensures cached == if failure.None? then None else old(cached)
    {
      if failure.None? || applied {
        table := Some(t);
      }
      if failure.Some? {
        return failure;
      }
      cached := None;
      return None;
    }

    method UpdateRoutes(c: Cluster, r: Remote)
      modifies this
      ensures View() == Step(old(View()), Update(c, r))
    {
      if routesToUpdate == [] {
        return;
      }
      var routeTable, err := Get(r.expired, r.get);
      if err.Some? {
        Notify(err);
        return;
      }
      if routeTable.None? {
        err := CreateOrUpdate(Table([], map[]), r.create, r.created);
        if err.Some? {
          Notify(err);
          return;
        }
        routeTable, err := Get(r.expired, r.again);
        if err.Some? {
          Notify(err);
          return;
        }
      }
      var b := BatchRoutes(routeTable.value.routes, c, routesToUpdate);
      if b.dirty {
        var routes := if b.onlyTags then routeTable.value.routes else b.routes;
        var tags := if b.tags.Some? then b.tags.value else routeTable.value.tags;
        // The error of the write does not reach the variable that the waiters are told.
        var _ := CreateOrUpdate(Table(routes, tags), r.write, r.applied);
      }
      Notify(None);
    }
  }

  /** The loop over the operations, after the cleanup. */
  method BatchRoutes(existing: seq<Route>, c: Cluster, ops: seq<Op>) returns (b: Batch)
    ensures b == Process(existing, c, ops)
  {
    var routes, dirty := FilterBackwards(existing, c.Keeps);
    var onlyTags, tags := !dirty, None;
    for k := 0 to |ops|
      invariant Batch(routes, dirty, onlyTags, tags) == Process(existing, c, ops[..k])
    {
      assert ops[..k + 1][..k] == ops[..k];
      if ops[k].UpdateTags? {
        tags, dirty := Some(ops[k].tags), true;
        continue;
      }
      onlyTags := false;
      var found;
      routes, found := TakeOut(routes, ops[k].route.name);
      if ops[k].Delete? && found.Some? {
        dirty := true;
      }
      if ops[k].Add? {
        routes := routes + [ops[k].route];
        if found.None? || !Agree(found.value, ops[k].route) {
          dirty := true;
        }
      }
    }
    assert ops[..|ops|] == ops;
    return Batch(routes, dirty, onlyTags, tags);
  }

  /** Deletes the first route of that name. */
  method TakeOut(routes: seq<Route>, name: string) returns (rest: seq<Route>, found: Option<Route>)
    ensures rest == RemoveFirst(routes, Lower(name)) && found == First(routes, Lower(name))
  {
    for i := 0 to |routes|
      invariant RemoveFirst(routes, Lower(name)) == routes[..i] + RemoveFirst(routes[i..], Lower(name))
      invariant First(routes, Lower(name)) == First(routes[i..], Lower(name))
    {
      assert routes[i..][1..] == routes[i + 1..];
      if EqualFold(routes[i].name, name) {
        return routes[..i] + routes[i + 1..], Some(routes[i]);
      }
    }
    return routes, None;
  }
}
