/**
 The cache as one goroutine uses it: objects in a store, updated in place (pkg/cache/azure_cache.go), against
 the uncached resource provider that the same file offers when caching is disabled.
 */
module CacheObject {
  import opened Text
  import opened TimedCache

  class AzureCacheEntry {
    const key: Key
    var data: Option<int>
    var createdOn: nat

    constructor (key: Key)
      ensures this.key == key && data == None && createdOn == 0
    {
      this.key := key;
      data := None;
      createdOn := 0;
    }
  }

  datatype Slot = Slot(data: Option<int>, createdOn: nat)

  /** A getter in a given state of the cloud. */
  type Getter = Key -> GetterResult

  /** What get answers and leaves behind, on the contents of the store. */
  function GetOn(view: map<Key, Slot>, key: Key, crt: ReadType, getter: Getter, now: nat, ttl: nat)
    : (GetterResult, map<Key, Slot>)
  {
    var slot := if key in view then view[key] else Slot(None, 0);
    if ServeCached(slot.data.Some?, slot.createdOn, crt, now, ttl) then
      (GetterData(slot.data), view[key := slot])
    else match getter(key)
      case GetterError => (GetterError, view[key := slot])
      case GetterData(v) => (GetterData(v), view[key := Slot(v, now)])
  }

  class CacheStore {
    const ttl: nat
    var store: map<Key, AzureCacheEntry>

    ghost predicate Valid()
      reads this, store.Values
    {
      forall k :: k in store ==> store[k].key == k
    }

    function View(): map<Key, Slot>
      reads this, store.Values
    {
      map k | k in store :: Slot(store[k].data, store[k].createdOn)
    }

    constructor (ttl: nat)
      ensures this.ttl == ttl && Valid() && View() == map[] && store == map[]
    {
      this.ttl := ttl;
      store := map[];
    }

    method GetInternal(key: Key) returns (entry: AzureCacheEntry)
      requires Valid()
      modifies this
      ensures Valid() && key in store && store[key] == entry
      ensures key in old(store) ==> store == old(store)
      ensures key !in old(store) ==> fresh(entry) && store == old(store)[key := entry]
      ensures View() == if key in old(store) then old(View()) else old(View())[key := Slot(None, 0)]
    {
      if key in store {
        return store[key];
      }
      entry := new AzureCacheEntry(key);
      store := store[key := entry];
    }

    method Fill(key: Key, data: Option<int>, now: nat)
      requires Valid() && key in store
      modifies store[key]
      ensures Valid() && View() == old(View())[key := Slot(data, now)]
    {
      assert forall k :: k in store && k != key ==> store[k] != store[key];
      store[key].data := data;
      store[key].createdOn := now;
    }

    method Get(key: Key, crt: ReadType, getter: Getter, now: nat) returns (r: GetterResult)
      requires Valid()
      modifies this, store.Values
      ensures Valid() && (r, View()) == GetOn(old(View()), key, crt, getter, now, ttl)
    {
      ghost var before := View();
      var entry := GetInternal(key);
      assert View()[key] == Slot(entry.data, entry.createdOn);
      assert View() == before[key := Slot(entry.data, entry.createdOn)];
      if ServeCached(entry.data.Some?, entry.createdOn, crt, now, ttl) {
        return GetterData(entry.data);
      }
      r := getter(key);
      if r.GetterData? {
        Fill(key, r.value, now);
        assert View() == before[key := Slot(r.value, now)];
      }
    }

    method Delete(key: Key)
      requires Valid()
      modifies this
      ensures Valid() && View() == old(View()) - {key}
    {
      store := store - {key};
    }

    method Update(key: Key, data: Option<int>, now: nat)
      requires Valid()
      modifies this, store.Values
      ensures Valid() && View() == old(View())[key := Slot(data, now)]
    {
      var _ := GetInternal(key);
      Fill(key, data, now);
    }
  }

  // ---------- When the cache answers ----------

  /** A default read of young data is answered from the cache, whatever the getter would say. */
  lemma YoungDataIsServed(view: map<Key, Slot>, key: Key, getter: Getter, now: nat, ttl: nat)
    requires key in view && view[key].data.Some? && view[key].createdOn <= now < view[key].createdOn + ttl
    ensures GetOn(view, key, Default, getter, now, ttl) == (GetterData(view[key].data), view)
  {
    assert view[key := view[key]] == view;
  }

  /** An unsafe read is answered from the cache at any age. */
  lemma AnyDataIsServedUnsafe(view: map<Key, Slot>, key: Key, getter: Getter, now: nat, ttl: nat)
    requires key in view && view[key].data.Some?
    ensures GetOn(view, key, Unsafe, getter, now, ttl) == (GetterData(view[key].data), view)
  {
    assert view[key := view[key]] == view;
  }

  /** Without data, with data that are too old, or when a refresh is forced, the getter answers. */
  predicate Fetches(view: map<Key, Slot>, key: Key, crt: ReadType, now: nat, ttl: nat) {
    || key !in view || view[key].data.None? || crt == ForceRefresh
    || (crt == Default && now >= view[key].createdOn + ttl)
  }

  /** Then its data are kept with the time of the call, and an error leaves the data as they were. */
  lemma OtherwiseFetched(view: map<Key, Slot>, key: Key, crt: ReadType, getter: Getter, now: nat, ttl: nat)
    requires Fetches(view, key, crt, now, ttl)
    ensures var (r, view') := GetOn(view, key, crt, getter, now, ttl);
            && r == getter(key)
            && (forall k :: k != key ==> (k in view' <==> k in view) && (k in view ==> view'[k] == view[k]))
            && key in view'
            && (r.GetterData? ==> view'[key].data == r.value && view'[key].createdOn == now)
            && (r.GetterError? ==> view'[key].data == if key in view then view[key].data else None)
  {
  }

  /** What one read fetched answers later default reads until the time to live is over. */
  lemma FetchedIsServedAgain(
      view: map<Key, Slot>, key: Key, crt: ReadType, getter: Getter, later: Getter, now: nat, after: nat, ttl: nat)
    requires Fetches(view, key, crt, now, ttl) && getter(key).GetterData? && getter(key).value.Some?
    requires now <= after < now + ttl
    ensures GetOn(GetOn(view, key, crt, getter, now, ttl).1, key, Default, later, after, ttl).0 == getter(key)
  {
    OtherwiseFetched(view, key, crt, getter, now, ttl);
    YoungDataIsServed(GetOn(view, key, crt, getter, now, ttl).1, key, later, after, ttl);
  }

  // ---------- Caching is invisible to a client that invalidates what it writes ----------

  /** A write goes to the cloud and then drops the cached entry, as the wrappers around the clients do. */
  datatype Op = Read(key: Key, crt: ReadType) | Write(key: Key, value: Option<int>)

  type Cloud = map<Key, int>

  /** The getter reads the cloud, or fails. */
  function Lookup(cloud: Cloud, works: bool): Getter {
    (k: Key) => if works then GetterData(if k in cloud then Some(cloud[k]) else None) else GetterError
  }

  function Written(cloud: Cloud, key: Key, value: Option<int>): Cloud {
    if value.Some? then cloud[key := value.value] else cloud - {key}
  }

  /** The answers of the cached client; at the i-th operation it is clock(i), and a getter call works if up(i). */
  function Cached(
      view: map<Key, Slot>, cloud: Cloud, ops: seq<Op>, clock: nat -> nat, up: nat -> bool, i: nat, ttl: nat)
    : seq<GetterResult>
    decreases |ops| - i
  {
    if i >= |ops| then [] else
      match ops[i]
      case Read(k, crt) =>
        var (r, view') := GetOn(view, k, crt, Lookup(cloud, up(i)), clock(i), ttl);
        [r] + Cached(view', cloud, ops, clock, up, i + 1, ttl)
      case Write(k, v) => Cached(view - {k}, Written(cloud, k, v), ops, clock, up, i + 1, ttl)
  }

  /** The answers of the resource provider without a cache. */
  function Uncached(cloud: Cloud, ops: seq<Op>, up: nat -> bool, i: nat): seq<GetterResult>
    decreases |ops| - i
  {
    if i >= |ops| then [] else
      match ops[i]
      case Read(k, _) => [Lookup(cloud, up(i))(k)] + Uncached(cloud, ops, up, i + 1)
      case Write(k, v) => Uncached(Written(cloud, k, v), ops, up, i + 1)
  }

  predicate Always(i: nat) {
    true
  }

  /** What is cached is what the cloud has. */
  ghost predicate Coherent(view: map<Key, Slot>, cloud: Cloud) {
    forall k :: k in view && view[k].data.Some? ==> k in cloud && view[k].data.value == cloud[k]
  }

  /** Answers c of a cached client against answers u of an uncached one, when t are the cloud's own data. */
  predicate Transparent(c: seq<GetterResult>, u: seq<GetterResult>, t: seq<GetterResult>) {
    && |c| == |u| == |t|
    && (forall j :: 0 <= j < |c| && u[j].GetterData? ==> c[j] == u[j])
    && (forall j :: 0 <= j < |c| && c[j].GetterData? ==> c[j] == t[j])
  }

  lemma TransparentNext(
      c: seq<GetterResult>, u: seq<GetterResult>, t: seq<GetterResult>, r: GetterResult, a: GetterResult,
      b: GetterResult)
    requires Transparent(c, u, t) && (a.GetterData? ==> r == a) && (r.GetterData? ==> r == b)
    ensures Transparent([r] + c, [a] + u, [b] + t)
  {
  }

  /**
   Whatever the read types, the clock, the time to live and the failures of the getter: where the uncached
   client gets data the cached one gets the same, and all data it gets are the cloud's.
   */
  lemma {:induction false} CacheIsTransparent(
      view: map<Key, Slot>, cloud: Cloud, ops: seq<Op>, clock: nat -> nat, up: nat -> bool, i: nat, ttl: nat)
    requires Coherent(view, cloud)
    ensures Transparent(
              Cached(view, cloud, ops, clock, up, i, ttl), Uncached(cloud, ops, up, i), Uncached(cloud, ops, Always, i))
    decreases |ops| - i
  {
    if i < |ops| {
      match ops[i] {
        case Read(k, crt) =>
          var (r, view') := GetOn(view, k, crt, Lookup(cloud, up(i)), clock(i), ttl);
          assert Coherent(view', cloud);
          CacheIsTransparent(view', cloud, ops, clock, up, i + 1, ttl);
          TransparentNext(
            Cached(view', cloud, ops, clock, up, i + 1, ttl), Uncached(cloud, ops, up, i + 1),
            Uncached(cloud, ops, Always, i + 1), r, Lookup(cloud, up(i))(k), Lookup(cloud, true)(k));
        case Write(k, v) =>
          assert Coherent(view - {k}, Written(cloud, k, v));
          CacheIsTransparent(view - {k}, Written(cloud, k, v), ops, clock, up, i + 1, ttl);
      }
    }
  }
}
