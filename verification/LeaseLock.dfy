/**
 The lock that Azure-writing components share: a Kubernetes Lease taken by Get, check, Update and given
 back by Get, check, Update (pkg/provider/azure_lock.go).  Update sends back the object that Get returned,
 so the API server applies it only if the lease has not been written in between.

 The decisions a component takes are functions on the lease it read; the protocol is a machine whose steps
 are single API calls or single local decisions of one component, interleaved in any order with the others'.
 */
module LeaseLock {
  import opened Text

  /** Nanoseconds since the zero time of the Go time package. */
  type Time = nat
  type Pid = nat

  const SECOND := 1_000_000_000
  const MICROSECOND := 1_000
  const CONTROLLER_NAME := "cloud-controller-manager"
  const PREVIOUS_HOLDER := "aks-managed-resource-locker-previous-holder"

  /** The controller process whose load balancer cache is modelled. */
  const CONTROLLER: Pid := 0

  datatype Lease = Lease(
    holder: string,
    seconds: int,
    renewTime: Option<Time>,
    annotations: Option<map<string, string>>)

  /** MicroTime is stored with microsecond precision. */
  function Truncate(t: Time): Time {
    t - t % MICROSECOND
  }

  function Expiration(l: Lease): int {
    match l.renewTime
    case None => 0
    case Some(t) => t + l.seconds * SECOND
  }

  predicate HasExpired(l: Lease, now: Time) {
    l.holder == "" || now > Expiration(l)
  }

  predicate MayAcquire(l: Lease, holder: string, now: Time) {
    HasExpired(l, now) || EqualFold(l.holder, holder)
  }

  function AcquiredBy(l: Lease, holder: string, now: Time): Lease {
    l.(holder := holder, renewTime := Some(Truncate(now)))
  }

  predicate MayRelease(l: Lease, holder: string, now: Time) {
    EqualFold(l.holder, holder) && !HasExpired(l, now)
  }

  function ReleasedBy(l: Lease, name: string): Lease {
    var notes := if l.annotations.Some? then l.annotations.value else map[];
    l.(holder := "", annotations := Some(notes[PREVIOUS_HOLDER := name]))
  }

  /** The annotation that makes the controller drop its caches: some map, not naming the controller. */
  predicate ForeignRelease(l: Lease) {
    && l.annotations.Some?
    && !EqualFold(if PREVIOUS_HOLDER in l.annotations.value then l.annotations.value[PREVIOUS_HOLDER] else "",
                  CONTROLLER_NAME)
  }

  // ---------- The machine ----------

  /** name is what the component writes into the previous-holder annotation when it releases. */
  datatype Component = Component(holder: string, name: string, seconds: int)

  type Config = Pid -> Component

  /** Where a component is inside Lock or Unlock, with the lease it read and that lease's resourceVersion. */
  datatype Phase =
    | Idle
    | Ensure
    | Create
    | ReadToAcquire
    | CheckToAcquire(read: Lease, version: nat)
    | Stamp(read: Lease, version: nat)
    | WriteToAcquire(read: Lease, version: nat, stamp: Time)
    | Refresh(read: Lease, window: nat)
    | Held(window: nat)
    | ReadToRelease
    | CheckToRelease(read: Lease, version: nat)
    | WriteToRelease(read: Lease, version: nat)

  /** Writes that reached the API server, with the lease they replaced. */
  datatype Event =
    | Acquired(who: Pid, before: Lease, at: Time, until: int)
    | Released(who: Pid, before: Lease, at: Time)

  /** window in a Phase is an index into log; cache holds the start times of the controller's cached reads. */
  datatype World = World(
    clock: Time,
    lease: Option<Lease>,
    version: nat,
    phases: map<Pid, Phase>,
    cache: set<Time>,
    log: seq<Event>)
  {
    function At(p: Pid): Phase {
      if p in phases then phases[p] else Idle
    }

    function Move(p: Pid, ph: Phase): World {
      this.(phases := phases[p := ph])
    }
  }

  /** What the caller sees of an API call; a write reported as failed may have been applied. */
  datatype Outcome = Done | Refused | AppliedButFailed

  datatype Action =
    | Tick(d: nat)
    | Fetch
    | Lock(p: Pid)
    | Unlock(p: Pid)
    | Step(p: Pid, outcome: Outcome)

  function Apply(cfg: Config, w: World, a: Action): World {
    match a
    case Tick(d) => w.(clock := w.clock + d)
    case Fetch => w.(cache := w.cache + {w.clock})
    case Lock(p) => if w.At(p).Idle? then w.Move(p, Ensure) else w
    case Unlock(p) => if w.At(p).Held? then w.Move(p, ReadToRelease) else w
    case Step(p, outcome) => Advance(cfg, w, p, outcome)
  }

  function Advance(cfg: Config, w: World, p: Pid, outcome: Outcome): World {
    match w.At(p)
    case Idle => w
    case Held(_) => w
    case Ensure =>
      w.Move(p, if !outcome.Done? then Idle else if w.lease.None? then Create else ReadToAcquire)
    case Create => CreateLease(cfg, w, p, outcome)
    case ReadToAcquire =>
      w.Move(p, if outcome.Done? && w.lease.Some? then CheckToAcquire(w.lease.value, w.version) else Idle)
    case CheckToAcquire(l, v) =>
      w.Move(p, if MayAcquire(l, cfg(p).holder, w.clock) then Stamp(l, v) else Idle)
    case Stamp(l, v) => w.Move(p, WriteToAcquire(l, v, w.clock))
    case WriteToAcquire(l, v, t) => WriteAcquire(cfg, w, p, outcome, l, v, t)
    case Refresh(l, i) => RefreshCaches(w, p, outcome, l, i)
    case ReadToRelease =>
      w.Move(p, if outcome.Done? && w.lease.Some? then CheckToRelease(w.lease.value, w.version) else Idle)
    case CheckToRelease(l, v) =>
      w.Move(p, if MayRelease(l, cfg(p).holder, w.clock) then WriteToRelease(l, v) else Idle)
    case WriteToRelease(l, v) => WriteRelease(cfg, w, p, outcome, l, v)
  }

  function CreateLease(cfg: Config, w: World, p: Pid, outcome: Outcome): World {
    if outcome.Refused? || w.lease.Some? then
      w.Move(p, Idle)
    else
      w.(lease := Some(Lease("", cfg(p).seconds, None, None)), version := w.version + 1)
       .Move(p, if outcome.Done? then ReadToAcquire else Idle)
  }

  function WriteAcquire(cfg: Config, w: World, p: Pid, outcome: Outcome, l: Lease, v: nat, t: Time): World {
    if outcome.Refused? || v != w.version then
      w.Move(p, Idle)
    else
      var l' := AcquiredBy(l, cfg(p).holder, t);
      w.(lease := Some(l'), version := w.version + 1, log := w.log + [Acquired(p, l, w.clock, Expiration(l'))])
       .Move(p, if outcome.Done? then Refresh(l, |w.log|) else Idle)
  }

  /** The caches are replaced before any error of refreshing them is returned. */
  function RefreshCaches(w: World, p: Pid, outcome: Outcome, l: Lease, i: nat): World {
    if !ForeignRelease(l) then
      w.Move(p, Held(i))
    else
      w.(cache := if p == CONTROLLER then {} else w.cache)
       .Move(p, if outcome.Done? then Held(i) else Idle)
  }

  function WriteRelease(cfg: Config, w: World, p: Pid, outcome: Outcome, l: Lease, v: nat): World {
    if outcome.Refused? || v != w.version then
      w.Move(p, Idle)
    else
      w.(lease := Some(ReleasedBy(l, cfg(p).name)), version := w.version + 1, log := w.log + [Released(p, l, w.clock)])
       .Move(p, Idle)
  }

  function Run(cfg: Config, w: World, acts: seq<Action>): World {
    if acts == [] then w else Apply(cfg, Run(cfg, w, acts[..|acts| - 1]), acts[|acts| - 1])
  }

  /** Lease times come from clocks that have already shown them, and are stored in microseconds. */
  predicate WellTimed(l: Lease, now: Time) {
    l.renewTime.Some? ==> l.renewTime.value <= now && l.renewTime.value % MICROSECOND == 0
  }

  ghost predicate Initial(w: World) {
    && w.phases == map[]
    && w.log == []
    && (w.lease.Some? ==> WellTimed(w.lease.value, w.clock))
  }

  ghost predicate NamedHolders(cfg: Config) {
    forall p: Pid :: cfg(p).holder != ""
  }

  predicate SameIdentity(cfg: Config, p: Pid, q: Pid) {
    EqualFold(cfg(p).holder, cfg(q).holder)
  }

  // ---------- Mutual exclusion ----------

  /** No component with the identity that opened window i has released since. */
  ghost predicate Unreleased(cfg: Config, log: seq<Event>, i: nat)
    requires i < |log|
  {
    forall k :: i < k < |log| && log[k].Released? ==> !SameIdentity(cfg, log[k].who, log[i].who)
  }

  ghost predicate WindowOpen(cfg: Config, w: World, i: nat) {
    i < |w.log| && w.log[i].Acquired? && w.clock <= w.log[i].until && Unreleased(cfg, w.log, i)
  }

  /** An acquire replaces an empty, expired or own lease; a release clears an own lease. */
  ghost predicate Orderly(cfg: Config, log: seq<Event>) {
    forall e :: e in log ==>
      if e.Acquired? then MayAcquire(e.before, cfg(e.who).holder, e.at)
      else EqualFold(e.before.holder, cfg(e.who).holder)
  }

  /** A window opens only after every earlier window of another identity has expired or been released. */
  ghost predicate Exclusive(cfg: Config, log: seq<Event>) {
    forall i, j :: 0 <= i < j < |log| && log[i].Acquired? && log[j].Acquired? && !SameIdentity(cfg, log[i].who, log[j].who) ==>
      log[j].at > log[i].until || ReleasedBetween(cfg, log, i, j)
  }

  ghost predicate ReleasedBetween(cfg: Config, log: seq<Event>, i: nat, j: nat)
    requires i <= j <= |log| && i < |log|
  {
    exists k :: i < k < j && log[k].Released? && SameIdentity(cfg, log[k].who, log[i].who)
  }

  /** An open window is what the stored lease says: its holder, and an expiry no earlier. */
  ghost predicate Guarded(cfg: Config, w: World) {
    forall i: nat :: WindowOpen(cfg, w, i) ==>
      && w.lease.Some?
      && EqualFold(w.lease.value.holder, cfg(w.log[i].who).holder)
      && w.lease.value.renewTime.Some?
      && w.log[i].until <= Expiration(w.lease.value)
  }

  /** A lease read at version v, still current when the server is still at version v. */
  predicate Snapshot(w: World, l: Lease, v: nat) {
    && v <= w.version
    && (v == w.version ==> w.lease == Some(l))
    && WellTimed(l, w.clock)
  }

  predicate PhaseOk(cfg: Config, w: World, p: Pid, phase: Phase) {
    match phase
    case CheckToAcquire(l, v) => Snapshot(w, l, v)
    case Stamp(l, v) => Snapshot(w, l, v) && MayAcquire(l, cfg(p).holder, w.clock)
    case WriteToAcquire(l, v, t) =>
      Snapshot(w, l, v) && MayAcquire(l, cfg(p).holder, w.clock) && WellTimed(l, t) && t <= w.clock
    case CheckToRelease(l, v) => Snapshot(w, l, v)
    case WriteToRelease(l, v) => Snapshot(w, l, v) && EqualFold(l.holder, cfg(p).holder)
    case Refresh(_, i) => i < |w.log| && w.log[i].Acquired? && w.log[i].who == p
    case Held(i) => i < |w.log| && w.log[i].Acquired? && w.log[i].who == p
    case _ => true
  }

  ghost predicate Inv(cfg: Config, w: World) {
    && (forall p: Pid :: PhaseOk(cfg, w, p, w.At(p)))
    && (w.lease.Some? ==> WellTimed(w.lease.value, w.clock))
    && (forall e :: e in w.log ==> e.at <= w.clock)
    && Guarded(cfg, w)
    && Orderly(cfg, w.log)
    && Exclusive(cfg, w.log)
  }
}
