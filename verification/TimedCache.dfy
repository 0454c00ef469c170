/**
 The cache with a time to live (pkg/cache/azure_cache.go) as goroutines see it: Get and Update look an entry
 up or create it under the store lock, then work on it under the entry's own lock; Delete takes no lock.
 Every step of a thread is one access to shared state, and threads interleave in any order.
 */
module TimedCache {
  import opened Text

  type Key = string
  type Tid = nat

  datatype ReadType = Default | Unsafe | ForceRefresh

  /** Cached data with the step at which its getter call began, or at which Update had looked its entry up. */
  datatype Datum =
    | Fetched(begun: nat, value: int)
    | Pushed(found: nat, value: int)
  {
    function Origin(): nat {
      if Fetched? then begun else found
    }
  }

  /** data is None for Go's nil; born is the step that put the entry into the store. */
  datatype Entry = Entry(key: Key, data: Option<Datum>, createdOn: nat, lockedBy: Option<Tid>, born: nat)

  datatype Call =
    | GetCall(key: Key, crt: ReadType, started: nat)
    | UpdateCall(key: Key, value: Option<int>, started: nat)

  /** The entry a thread works on is an index into entries; found is the step at which it looked it up. */
  datatype Phase =
    | Idle
    | LookUp(call: Call)
    | WaitStore(call: Call)
    | LookAgain(call: Call)
    | Insert(call: Call)
    | WaitEntry(call: Call, entry: nat, found: nat)
    | Inside(call: Call, entry: nat, found: nat)
    | Fetching(call: Call, entry: nat, found: nat, begun: nat)

  /** What a Get returned; age is the age of cached data, None for data fetched by this call. */
  datatype Return = Return(call: Call, data: Option<Datum>, age: Option<nat>)

  datatype Deletion = Deletion(key: Key, at: nat)

  datatype GetterResult = GetterError | GetterData(value: Option<int>)

  /** step counts steps and orders events; wall is the clock that ttl refers to. */
  datatype World = World(
    ttl: nat,
    step: nat,
    wall: nat,
    store: map<Key, nat>,
    entries: seq<Entry>,
    storeLock: Option<Tid>,
    phases: map<Tid, Phase>,
    deletions: seq<Deletion>,
    returned: seq<Return>)
  {
    function At(t: Tid): Phase {
      if t in phases then phases[t] else Idle
    }

    function Move(t: Tid, ph: Phase): World {
      this.(phases := phases[t := ph])
    }

    function Put(e: nat, entry: Entry): World
      requires e < |entries|
    {
      this.(entries := entries[e := entry])
    }
  }

  datatype Action =
    | Tick(d: nat)
    | BeginGet(t: Tid, key: Key, crt: ReadType)
    | BeginUpdate(t: Tid, key: Key, value: Option<int>)
    | Delete(key: Key)
    | Step(t: Tid, getter: GetterResult)

  /** The decision that get takes with the entry lock held. */
  predicate ServeCached(hasData: bool, createdOn: nat, crt: ReadType, wall: nat, ttl: nat) {
    hasData && (crt == Unsafe || (crt == Default && wall - createdOn < ttl))
  }

  function Apply(w: World, a: Action): World {
    Do(w, a).(step := w.step + 1)
  }

  function Do(w: World, a: Action): World {
    match a
    case Tick(d) => w.(wall := w.wall + d)
    case BeginGet(t, key, crt) => if w.At(t).Idle? then w.Move(t, LookUp(GetCall(key, crt, w.step))) else w
    case BeginUpdate(t, key, v) => if w.At(t).Idle? then w.Move(t, LookUp(UpdateCall(key, v, w.step))) else w
    case Delete(key) => w.(store := w.store - {key}, deletions := w.deletions + [Deletion(key, w.step)])
    case Step(t, getter) => Advance(w, t, getter)
  }

  function Advance(w: World, t: Tid, getter: GetterResult): World {
    match w.At(t)
    case Idle => w
    case LookUp(c) =>
      w.Move(t, if c.key in w.store then WaitEntry(c, w.store[c.key], w.step) else WaitStore(c))
    case WaitStore(c) =>
      if w.storeLock.None? then w.(storeLock := Some(t)).Move(t, LookAgain(c)) else w
    case LookAgain(c) =>
      if c.key in w.store then w.(storeLock := None).Move(t, WaitEntry(c, w.store[c.key], w.step))
      else w.Move(t, Insert(c))
    case Insert(c) => InsertEntry(w, t, c)
    case WaitEntry(c, e, f) =>
      if e < |w.entries| && w.entries[e].lockedBy.None? then
        w.Put(e, w.entries[e].(lockedBy := Some(t))).Move(t, Inside(c, e, f))
      else w
    case Inside(c, e, f) => if e < |w.entries| then Work(w, t, c, e, f) else w
    case Fetching(c, e, f, b) => if e < |w.entries| then FinishFetch(w, t, c, e, b, getter) else w
  }

  function InsertEntry(w: World, t: Tid, c: Call): World {
    w.(entries := w.entries + [Entry(c.key, None, 0, None, w.step)],
       store := w.store[c.key := |w.entries|],
       storeLock := None)
     .Move(t, WaitEntry(c, |w.entries|, w.step))
  }

  function Work(w: World, t: Tid, c: Call, e: nat, f: nat): World
    requires e < |w.entries|
  {
    var entry := w.entries[e];
    match c
    case UpdateCall(_, v, _) =>
      var data := if v.Some? then Some(Pushed(f, v.value)) else None;
      w.Put(e, entry.(data := data, createdOn := w.wall, lockedBy := None)).Move(t, Idle)
    case GetCall(_, crt, _) =>
      if ServeCached(entry.data.Some?, entry.createdOn, crt, w.wall, w.ttl) then
        var age := if entry.createdOn <= w.wall then w.wall - entry.createdOn else 0;
        w.Put(e, entry.(lockedBy := None))
         .(returned := w.returned + [Return(c, entry.data, Some(age))])
         .Move(t, Idle)
      else
        w.Move(t, Fetching(c, e, f, w.step))
  }

  function FinishFetch(w: World, t: Tid, c: Call, e: nat, b: nat, getter: GetterResult): World
    requires e < |w.entries|
  {
    match getter
    case GetterError => w.Put(e, w.entries[e].(lockedBy := None)).Move(t, Idle)
    case GetterData(v) =>
      var data := if v.Some? then Some(Fetched(b, v.value)) else None;
      w.Put(e, w.entries[e].(data := data, createdOn := w.wall, lockedBy := None))
       .(returned := w.returned + [Return(c, data, None)])
       .Move(t, Idle)
  }

  function Run(w: World, acts: seq<Action>): World {
    if acts == [] then w else Apply(Run(w, acts[..|acts| - 1]), acts[|acts| - 1])
  }

  predicate Initial(w: World) {
    && w.store == map[] && w.entries == [] && w.storeLock == None
    && w.phases == map[] && w.deletions == [] && w.returned == []
  }
}
