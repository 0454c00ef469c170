/** What the cache promises under every interleaving of Get, Update and Delete. */
module CacheSafety {
  import opened Text
  import opened TimedCache

  /** Data a Get may return: nothing from before a Delete that preceded the call. */
  ghost predicate NotFromBeforeDelete(w: World, r: Return) {
    r.data.Some? ==>
      forall d :: d in w.deletions && d.key == r.call.key && d.at < r.call.started ==> d.at < r.data.value.Origin()
  }

  /** Cached data is young enough for the read type; other data was fetched by this very call. */
  predicate HonoursReadType(ttl: nat, r: Return) {
    match r.call
    case UpdateCall(_, _, _) => false
    case GetCall(_, crt, started) =>
      if r.age.Some? then crt == Unsafe || (crt == Default && r.age.value < ttl)
      else r.data.Some? ==> r.data.value.Fetched? && started < r.data.value.begun
  }

  ghost predicate Separated(w: World, i: nat, j: nat)
    requires i < |w.entries| && j < |w.entries|
  {
    exists d :: d in w.deletions && d.key == w.entries[i].key && w.entries[i].born < d.at < w.entries[j].born
  }

  ghost predicate Removed(w: World, i: nat)
    requires i < |w.entries|
  {
    exists d :: d in w.deletions && d.key == w.entries[i].key && w.entries[i].born < d.at
  }

  // ---------- The invariant ----------

  predicate CallOk(w: World, c: Call) {
    c.started < w.step
  }

  /** The entry is the one the store had for this key when it was looked up. */
  ghost predicate EntryOk(w: World, c: Call, e: nat, f: nat) {
    && c.started < f < w.step
    && e < |w.entries| && w.entries[e].key == c.key && w.entries[e].born <= f
    && forall d :: d in w.deletions && d.key == c.key && d.at < f ==> d.at < w.entries[e].born
  }

  ghost predicate PhaseOk(w: World, t: Tid, ph: Phase) {
    match ph
    case Idle => true
    case LookUp(c) => CallOk(w, c)
    case WaitStore(c) => CallOk(w, c)
    case LookAgain(c) => CallOk(w, c) && w.storeLock == Some(t)
    case Insert(c) => CallOk(w, c) && w.storeLock == Some(t) && c.key !in w.store
    case WaitEntry(c, e, f) => EntryOk(w, c, e, f)
    case Inside(c, e, f) => EntryOk(w, c, e, f) && w.entries[e].lockedBy == Some(t)
    case Fetching(c, e, f, b) =>
      EntryOk(w, c, e, f) && w.entries[e].lockedBy == Some(t) && c.GetCall? && f < b < w.step
  }

  ghost predicate StoreOk(w: World) {
    && (forall k :: k in w.store ==> w.store[k] < |w.entries| && w.entries[w.store[k]].key == k)
    && (forall k, d :: k in w.store && d in w.deletions && d.key == k ==> d.at < w.entries[w.store[k]].born)
  }

  ghost predicate EntriesOk(w: World) {
    && (forall i :: 0 <= i < |w.entries| ==>
          && w.entries[i].born < w.step
          && w.entries[i].createdOn <= w.wall
          && (w.entries[i].data.Some? ==> w.entries[i].born <= w.entries[i].data.value.Origin()))
    && (forall i: nat :: i < |w.entries| && (w.entries[i].key !in w.store || w.store[w.entries[i].key] != i) ==>
          Removed(w, i))
    && (forall i: nat, j: nat :: i < j < |w.entries| && w.entries[i].key == w.entries[j].key ==> Separated(w, i, j))
  }

  ghost predicate Inv(w: World) {
    && (forall t: Tid :: PhaseOk(w, t, w.At(t)))
    && StoreOk(w)
    && EntriesOk(w)
    && (forall d :: d in w.deletions ==> d.at < w.step)
    && (forall r :: r in w.returned ==>
          NotFromBeforeDelete(w, r) && HonoursReadType(w.ttl, r) && r.call.started < w.step)
  }

  /** Same entries apart from data and locks. */
  ghost predicate SameEntries(w: World, w': World) {
    && |w'.entries| == |w.entries|
    && forall i :: 0 <= i < |w.entries| ==>
         w'.entries[i].key == w.entries[i].key && w'.entries[i].born == w.entries[i].born
  }

  /** Only t moves, and only the entry it works on changes; store and deletions stay. */
  lemma LocalStep(w: World, w': World, t: Tid)
    requires Inv(w)
    requires w'.step == w.step + 1 && w'.wall == w.wall && w'.ttl == w.ttl
    requires w'.store == w.store && w'.deletions == w.deletions
    requires forall u: Tid :: u != t ==> w'.At(u) == w.At(u)
    requires w'.storeLock == w.storeLock || w.storeLock == Some(t) || w.storeLock == None
    requires SameEntries(w, w')
    requires forall i :: 0 <= i < |w.entries| && w'.entries[i] != w.entries[i] ==>
               && (w.entries[i].lockedBy == Some(t) || w.entries[i].lockedBy == None)
               && w'.entries[i].createdOn <= w.wall
               && (w'.entries[i].data.Some? ==> w.entries[i].born <= w'.entries[i].data.value.Origin())
    requires PhaseOk(w', t, w'.At(t))
    requires forall r :: r in w'.returned ==>
               r in w.returned || (NotFromBeforeDelete(w, r) && HonoursReadType(w.ttl, r) && r.call.started < w.step)
    ensures Inv(w')
  {
    forall u: Tid ensures PhaseOk(w', u, w'.At(u)) {
      assert PhaseOk(w, u, w.At(u));
    }
    forall i: nat | i < |w'.entries| && (w'.entries[i].key !in w'.store || w'.store[w'.entries[i].key] != i)
      ensures Removed(w', i)
    {
      assert Removed(w, i);
    }
    forall i: nat, j: nat | i < j < |w'.entries| && w'.entries[i].key == w'.entries[j].key
      ensures Separated(w', i, j)
    {
      assert Separated(w, i, j);
    }
  }

  lemma TickStep(w: World, d: nat)
    requires Inv(w)
    ensures Inv(Apply(w, Tick(d)))
  {
    var w' := Apply(w, Tick(d));
    forall u: Tid ensures PhaseOk(w', u, w'.At(u)) {
      assert PhaseOk(w, u, w.At(u));
    }
    assert forall i: nat :: i < |w.entries| && Removed(w, i) ==> Removed(w', i);
    assert forall i: nat, j: nat :: i < j < |w.entries| && Separated(w, i, j) ==> Separated(w', i, j);
  }

  lemma DeleteStep(w: World, key: Key)
    requires Inv(w)
    ensures Inv(Apply(w, Delete(key)))
  {
    var w' := Apply(w, Delete(key));
    var gone := Deletion(key, w.step);
    assert gone in w'.deletions;
    assert forall d :: d in w'.deletions ==> d in w.deletions || d == gone;
    forall u: Tid ensures PhaseOk(w', u, w'.At(u)) {
      assert PhaseOk(w, u, w.At(u));
    }
    forall i: nat | i < |w'.entries| && (w'.entries[i].key !in w'.store || w'.store[w'.entries[i].key] != i)
      ensures Removed(w', i)
    {
      if w.entries[i].key in w.store && w.store[w.entries[i].key] == i {
        assert gone.key == w'.entries[i].key && w'.entries[i].born < gone.at;
      } else {
        assert Removed(w, i);
        var d :| d in w.deletions && d.key == w.entries[i].key && w.entries[i].born < d.at;
        assert d in w'.deletions;
      }
    }
    forall i: nat, j: nat | i < j < |w'.entries| && w'.entries[i].key == w'.entries[j].key
      ensures Separated(w', i, j)
    {
      assert Separated(w, i, j);
      var d :| d in w.deletions && d.key == w.entries[i].key && w.entries[i].born < d.at < w.entries[j].born;
      assert d in w'.deletions;
    }
  }

  /** The world after t puts a new entry into the store. */
  function Inserted(w: World, t: Tid, c: Call): World {
    InsertEntry(w, t, c).(step := w.step + 1)
  }

  /** The store lock keeps the key absent between the second lookup and the insertion. */
  lemma InsertPhases(w: World, t: Tid, c: Call)
    requires Inv(w) && w.At(t) == Insert(c)
    ensures forall u: Tid :: PhaseOk(Inserted(w, t, c), u, Inserted(w, t, c).At(u))
  {
    var w' := Inserted(w, t, c);
    assert PhaseOk(w, t, w.At(t));
    forall u: Tid ensures PhaseOk(w', u, w'.At(u)) {
      assert PhaseOk(w, u, w.At(u));
    }
  }

  lemma InsertEntries(w: World, t: Tid, c: Call)
    requires Inv(w) && c.key !in w.store
    ensures StoreOk(Inserted(w, t, c)) && EntriesOk(Inserted(w, t, c))
  {
    var w' := Inserted(w, t, c);
    var n := |w.entries|;
    assert w'.entries[..n] == w.entries;
    forall i: nat | i < n && (w'.entries[i].key !in w'.store || w'.store[w'.entries[i].key] != i)
      ensures Removed(w', i)
    {
      assert Removed(w, i);
    }
    forall i: nat, j: nat | i < j < |w'.entries| && w'.entries[i].key == w'.entries[j].key
      ensures Separated(w', i, j)
    {
      if j < n {
        assert Separated(w, i, j);
      } else {
        assert Removed(w, i);
      }
    }
  }

  lemma InsertStep(w: World, t: Tid, getter: GetterResult)
    requires Inv(w) && w.At(t).Insert?
    ensures Inv(Apply(w, Step(t, getter)))
  {
    var c := w.At(t).call;
    assert PhaseOk(w, t, w.At(t));
    InsertPhases(w, t, c);
    InsertEntries(w, t, c);
    var w' := Inserted(w, t, c);
    assert forall r :: r in w.returned && NotFromBeforeDelete(w, r) ==> NotFromBeforeDelete(w', r);
    assert Inv(w');
  }

  lemma WorkStep(w: World, t: Tid, getter: GetterResult)
    requires Inv(w) && w.At(t).Inside?
    ensures Inv(Apply(w, Step(t, getter)))
  {
    var Inside(c, e, f) := w.At(t);
    assert PhaseOk(w, t, w.At(t));
    var w' := Work(w, t, c, e, f).(step := w.step + 1);
    if c.GetCall? && ServeCached(w.entries[e].data.Some?, w.entries[e].createdOn, c.crt, w.wall, w.ttl) {
      assert NotFromBeforeDelete(w, w'.returned[|w.returned|]);
    }
    LocalStep(w, w', t);
  }

  lemma FetchStep(w: World, t: Tid, getter: GetterResult)
    requires Inv(w) && w.At(t).Fetching?
    ensures Inv(Apply(w, Step(t, getter)))
  {
    var Fetching(c, e, f, b) := w.At(t);
    assert PhaseOk(w, t, w.At(t));
    LocalStep(w, FinishFetch(w, t, c, e, b, getter).(step := w.step + 1), t);
  }

  lemma LookStep(w: World, t: Tid, getter: GetterResult)
    requires Inv(w)
    requires w.At(t).Idle? || w.At(t).LookUp? || w.At(t).WaitStore? || w.At(t).LookAgain?
    ensures Inv(Apply(w, Step(t, getter)))
  {
    assert PhaseOk(w, t, w.At(t));
    LocalStep(w, Apply(w, Step(t, getter)), t);
  }

  lemma LockStep(w: World, t: Tid, getter: GetterResult)
    requires Inv(w) && w.At(t).WaitEntry?
    ensures Inv(Apply(w, Step(t, getter)))
  {
    assert PhaseOk(w, t, w.At(t));
    LocalStep(w, Apply(w, Step(t, getter)), t);
  }

  lemma BeginStep(w: World, t: Tid, a: Action)
    requires Inv(w)
    requires (a.BeginGet? || a.BeginUpdate?) && a.t == t
    ensures Inv(Apply(w, a))
  {
    assert PhaseOk(w, t, w.At(t));
    LocalStep(w, Apply(w, a), t);
  }

  lemma AdvanceStep(w: World, t: Tid, getter: GetterResult)
    requires Inv(w)
    ensures Inv(Apply(w, Step(t, getter)))
  {
    match w.At(t) {
      case Insert(_) => InsertStep(w, t, getter);
      case WaitEntry(_, _, _) => LockStep(w, t, getter);
      case Inside(_, _, _) => WorkStep(w, t, getter);
      case Fetching(_, _, _, _) => FetchStep(w, t, getter);
      case _ => LookStep(w, t, getter);
    }
  }

  lemma InvStep(w: World, a: Action)
    requires Inv(w)
    ensures Inv(Apply(w, a))
  {
    match a {
      case Tick(d) => TickStep(w, d);
      case Delete(key) => DeleteStep(w, key);
      case BeginGet(t, _, _) => BeginStep(w, t, a);
      case BeginUpdate(t, _, _) => BeginStep(w, t, a);
      case Step(t, getter) => AdvanceStep(w, t, getter);
    }
  }

  lemma {:induction false} InvRun(w: World, acts: seq<Action>)
    requires Initial(w)
    ensures Inv(Run(w, acts))
  {
    if acts != [] {
      var n := |acts| - 1;
      InvRun(w, acts[..n]);
      InvStep(Run(w, acts[..n]), acts[n]);
    }
  }

  /**
   Under every interleaving: a Get that started after a Delete of its key returns only data whose getter
   call began, or whose Update looked its entry up, after that Delete; and it honours its read type.
   */
  lemma DeleteIsRespected(w: World, acts: seq<Action>, r: Return)
    requires Initial(w) && r in Run(w, acts).returned
    ensures HonoursReadType(Run(w, acts).ttl, r)
    ensures r.data.Some? ==>
              forall d :: d in Run(w, acts).deletions && d.key == r.call.key && d.at < r.call.started ==>
                d.at < r.data.value.Origin()
  {
    InvRun(w, acts);
    assert NotFromBeforeDelete(Run(w, acts), r);
  }

  /**
   At most one getter call per entry is in flight; two in flight for one key work on entries that a Delete
   of that key separates; and creating an entry never replaces one that is in the store.
   */
  lemma OneFetchPerEntry(w: World, acts: seq<Action>, t: Tid, u: Tid)
    requires Initial(w) && t != u
    ensures var w' := Run(w, acts);
            && (w'.At(t).Fetching? && w'.At(u).Fetching? ==> w'.At(t).entry != w'.At(u).entry)
            && (w'.At(t).Fetching? && w'.At(u).Fetching? && w'.At(t).call.key == w'.At(u).call.key ==>
                  && w'.At(t).entry < |w'.entries| && w'.At(u).entry < |w'.entries|
                  && (Separated(w', w'.At(t).entry, w'.At(u).entry) || Separated(w', w'.At(u).entry, w'.At(t).entry)))
            && (w'.At(t).Insert? ==> w'.At(t).call.key !in w'.store)
  {
    InvRun(w, acts);
    var w' := Run(w, acts);
    assert PhaseOk(w', t, w'.At(t)) && PhaseOk(w', u, w'.At(u));
  }

  // ---------- When the cache answers ----------

  /** A Get that holds the entry's lock calls the getter exactly when there is no data or it may not be served. */
  lemma FetchesExactlyWhen(w: World, t: Tid, getter: GetterResult, c: Call, e: nat, f: nat)
    requires w.At(t) == Inside(c, e, f) && c.GetCall? && e < |w.entries|
    ensures var entry, w' := w.entries[e], Apply(w, Step(t, getter));
            && (w'.At(t).Fetching? <==>
                  || entry.data.None? || c.crt == ForceRefresh
                  || (c.crt == Default && w.wall >= entry.createdOn + w.ttl))
            && (!w'.At(t).Fetching? ==>
                  && w'.At(t).Idle? && |w'.returned| == |w.returned| + 1
                  && w'.returned[|w.returned|].call == c && w'.returned[|w.returned|].data == entry.data)
            && |w'.entries| == |w.entries| && w'.entries[e].data == entry.data
            && w'.entries[e].createdOn == entry.createdOn
  {
  }

  /** A getter's data is returned and kept with the time of the return; after an error the old data stay. */
  lemma FetchIsKept(w: World, t: Tid, getter: GetterResult, c: Call, e: nat, f: nat, b: nat)
    requires w.At(t) == Fetching(c, e, f, b) && e < |w.entries|
    ensures var w' := Apply(w, Step(t, getter));
            && w'.At(t).Idle? && |w'.entries| == |w.entries|
            && (getter.GetterError? ==> w'.entries[e].data == w.entries[e].data && w'.returned == w.returned)
            && (getter.GetterData? ==>
                  && w'.entries[e].createdOn == w.wall && |w'.returned| == |w.returned| + 1
                  && w'.returned[|w.returned|].data == w'.entries[e].data
                  && (w'.entries[e].data.Some? <==> getter.value.Some?)
                  && (getter.value.Some? ==> w'.entries[e].data.value.value == getter.value.value))
  {
  }

  /** An Update puts its data into the entry with the time at which it does so. */
  lemma UpdateIsKept(w: World, t: Tid, getter: GetterResult, c: Call, e: nat, f: nat)
    requires w.At(t) == Inside(c, e, f) && c.UpdateCall? && e < |w.entries|
    ensures var w' := Apply(w, Step(t, getter));
            && w'.At(t).Idle? && |w'.entries| == |w.entries| && w'.entries[e].createdOn == w.wall
            && (w'.entries[e].data.Some? <==> c.value.Some?)
            && (c.value.Some? ==> w'.entries[e].data.value.value == c.value.value)
  {
  }
}
