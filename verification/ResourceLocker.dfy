/**
 Lock and Unlock as sequential code (pkg/provider/azure_lock.go), run against an API server that other
 components use between any two of its calls.  Every execution is an execution of the machine in LeaseLock,
 so what LeaseSafety proves of the machine holds of this code.
 */
module ResourceLocker {
  import opened Text
  import opened LeaseLock
  import opened LeaseSafety

  datatype Reply = Found(lease: Lease, version: nat) | NotFound | Failed

  /** The actions of components other than p. */
  predicate Foreign(p: Pid, acts: seq<Action>) {
    forall a :: a in acts ==> match a
      case Lock(q) => q != p
      case Unlock(q) => q != p
      case Step(q, _) => q != p
      case _ => true
  }

  /** What happens before the k-th call or decision, and how the k-th call ends. */
  datatype Schedule = Schedule(others: nat -> seq<Action>, outcome: nat -> Outcome)

  ghost predicate ForeignSchedule(p: Pid, s: Schedule) {
    forall k: nat :: Foreign(p, s.others(k))
  }

  ghost predicate Reaches(cfg: Config, w: World, w': World) {
    exists acts :: w' == Run(cfg, w, acts)
  }

  lemma ReachesStep(cfg: Config, w: World, w': World, a: Action)
    requires Reaches(cfg, w, w')
    ensures Reaches(cfg, w, Apply(cfg, w', a))
  {
    var acts :| w' == Run(cfg, w, acts);
    assert (acts + [a])[..|acts|] == acts;
    assert Apply(cfg, w', a) == Run(cfg, w, acts + [a]);
  }

  lemma {:induction false} ReachesRun(cfg: Config, w: World, w': World, acts: seq<Action>)
    requires Reaches(cfg, w, w')
    ensures Reaches(cfg, w, Run(cfg, w', acts))
  {
    if acts != [] {
      var n := |acts| - 1;
      ReachesRun(cfg, w, w', acts[..n]);
      ReachesStep(cfg, w, Run(cfg, w', acts[..n]), acts[n]);
    }
  }

  lemma ReachesItself(cfg: Config, w: World)
    ensures Reaches(cfg, w, w)
  {
    assert w == Run(cfg, w, []);
  }

  lemma ForeignStep(cfg: Config, w: World, p: Pid, a: Action)
    requires Foreign(p, [a])
    ensures Apply(cfg, w, a).At(p) == w.At(p)
  {
    assert a in [a];
  }

  lemma {:induction false} ForeignRun(cfg: Config, w: World, p: Pid, acts: seq<Action>)
    requires Foreign(p, acts)
    ensures Run(cfg, w, acts).At(p) == w.At(p)
  {
    if acts != [] {
      var n := |acts| - 1;
      assert acts[n] in acts && forall a :: a in acts[..n] ==> a in acts;
      ForeignRun(cfg, w, p, acts[..n]);
      ForeignStep(cfg, Run(cfg, w, acts[..n]), p, acts[n]);
    }
  }

  lemma {:induction false} InvReached(cfg: Config, w: World, acts: seq<Action>)
    requires Inv(cfg, w) && NamedHolders(cfg)
    ensures Inv(cfg, Run(cfg, w, acts))
  {
    if acts != [] {
      var n := |acts| - 1;
      InvReached(cfg, w, acts[..n]);
      InvStep(cfg, Run(cfg, w, acts[..n]), acts[n]);
    }
  }

  lemma LogGrows(cfg: Config, w: World, a: Action)
    ensures w.log <= Apply(cfg, w, a).log && w.clock <= Apply(cfg, w, a).clock
  {
  }

  /** Time goes on and the log grows, so a window that is over stays over. */
  lemma {:induction false} OpenEarlier(cfg: Config, w: World, acts: seq<Action>, i: nat)
    requires i < |w.log|
    ensures var w' := Run(cfg, w, acts);
            && w.log <= w'.log && w.clock <= w'.clock
            && (WindowOpen(cfg, w', i) ==> WindowOpen(cfg, w, i))
  {
    if acts != [] {
      var n := |acts| - 1;
      OpenEarlier(cfg, w, acts[..n], i);
      LogGrows(cfg, Run(cfg, w, acts[..n]), acts[n]);
    }
  }

  lemma StaysOver(cfg: Config, w: World, w': World, i: nat)
    requires Reaches(cfg, w, w') && i < |w.log|
    ensures w.log <= w'.log && w.clock <= w'.clock
    ensures WindowOpen(cfg, w', i) ==> WindowOpen(cfg, w, i)
  {
    var acts :| w' == Run(cfg, w, acts);
    OpenEarlier(cfg, w, acts, i);
  }

  lemma {:induction false} LaterRun(cfg: Config, w: World, acts: seq<Action>)
    ensures w.log <= Run(cfg, w, acts).log && w.clock <= Run(cfg, w, acts).clock
  {
    if acts != [] {
      var n := |acts| - 1;
      LaterRun(cfg, w, acts[..n]);
      LogGrows(cfg, Run(cfg, w, acts[..n]), acts[n]);
    }
  }

  lemma Later(cfg: Config, w: World, w': World)
    requires Reaches(cfg, w, w')
    ensures w.log <= w'.log && w.clock <= w'.clock
  {
    var acts :| w' == Run(cfg, w, acts);
    LaterRun(cfg, w, acts);
  }

  /** Window i lasts, to the microsecond, for the lease's number of seconds from a time on, or longer. */
  predicate LastsFrom(w: World, i: nat, from: Time) {
    && i < |w.log| && w.log[i].Acquired?
    && w.log[i].until + 1_000 > from + w.log[i].before.seconds * 1_000_000_000
  }

  /** While a window is open, the lease says so. */
  lemma OpenMeansHeld(cfg: Config, before: World, w: World, i: nat)
    requires Inv(cfg, before) && NamedHolders(cfg) && Reaches(cfg, before, w) && WindowOpen(cfg, w, i)
    ensures w.lease.Some? && EqualFold(w.lease.value.holder, cfg(w.log[i].who).holder)
    ensures w.log[i].until <= Expiration(w.lease.value)
  {
    var acts :| w == Run(cfg, before, acts);
    InvReached(cfg, before, acts);
  }

  /** The API server, the clock and the other components. */
  class Cluster {
    const cfg: Config
    var world: World

    constructor (cfg: Config, world: World)
      ensures this.cfg == cfg && this.world == world
    {
      this.cfg := cfg;
      this.world := world;
    }

    /** The others run. */
    method Yield(ghost before: World, p: Pid, acts: seq<Action>)
      requires Foreign(p, acts) && Reaches(cfg, before, world)
      modifies this
      ensures Reaches(cfg, old(world), world) && world.At(p) == old(world.At(p))
      ensures Reaches(cfg, before, world)
    {
      ReachesItself(cfg, world);
      ReachesRun(cfg, world, world, acts);
      ReachesRun(cfg, before, world, acts);
      ForeignRun(cfg, world, p, acts);
      world := Run(cfg, world, acts);
    }

    /** A step that reads or decides. */
    method Proceed(ghost before: World, p: Pid, outcome: Outcome)
      requires Reaches(cfg, before, world)
      modifies this
      ensures world == Advance(cfg, old(world), p, outcome)
      ensures Reaches(cfg, before, world)
    {
      ReachesStep(cfg, before, world, Step(p, outcome));
      world := Advance(cfg, world, p, outcome);
    }

    /** The expiry check of a component about to acquire; now is the clock it reads. */
    method Check(ghost before: World, p: Pid) returns (now: Time)
      requires Reaches(cfg, before, world) && world.At(p).CheckToAcquire?
      modifies this
      ensures Reaches(cfg, before, world)
      ensures var CheckToAcquire(l, v) := old(world).At(p);
              world.At(p) == if MayAcquire(l, cfg(p).holder, now) then Stamp(l, v) else Idle
    {
      now := world.clock;
      Proceed(before, p, Done);
    }

    /** The renew time of a component about to acquire. */
    method Now(ghost before: World, p: Pid) returns (now: Time)
      requires Reaches(cfg, before, world) && world.At(p).Stamp?
      modifies this
      ensures Reaches(cfg, before, world)
      ensures now == old(world).clock
      ensures var Stamp(l, v) := old(world).At(p);
              world.At(p) == WriteToAcquire(l, v, now)
    {
      now := world.clock;
      Proceed(before, p, Done);
    }

    /** The cache refresh at the end of an acquire. */
    method Finish(ghost before: World, p: Pid, outcome: Outcome)
      requires Reaches(cfg, before, world) && world.At(p).Refresh?
      modifies this
      ensures Reaches(cfg, before, world)
      ensures var Refresh(l, i) := old(world).At(p);
              && world.At(p) == (if ForeignRelease(l) && !outcome.Done? then Idle else Held(i))
              && world.log == old(world).log
              && (ForeignRelease(l) && p == CONTROLLER ==> world.cache == {})
    {
      Proceed(before, p, outcome);
    }

    method Get(ghost before: World, p: Pid, outcome: Outcome) returns (r: Reply)
      requires Reaches(cfg, before, world)
      modifies this
      ensures world == Advance(cfg, old(world), p, outcome)
      ensures Reaches(cfg, before, world)
      ensures r == if !outcome.Done? then Failed
                   else if old(world).lease.None? then NotFound
                   else Found(old(world).lease.value, old(world).version)
    {
      r := if !outcome.Done? then Failed
           else if world.lease.None? then NotFound
           else Found(world.lease.value, world.version);
      Proceed(before, p, outcome);
    }

    /** Applied only to the version that was read. */
    method Update(ghost before: World, p: Pid, lease: Lease, version: nat, outcome: Outcome) returns (ok: bool)
      requires Reaches(cfg, before, world)
      requires match world.At(p)
               case WriteToAcquire(l, v, t) => lease == AcquiredBy(l, cfg(p).holder, t) && version == v
               case WriteToRelease(l, v) => lease == ReleasedBy(l, cfg(p).name) && version == v
               case _ => false
      modifies this
      ensures Reaches(cfg, before, world)
      ensures ok == (outcome.Done? && version == old(world).version)
      ensures var phase := old(world).At(p);
              world.At(p) == if ok && phase.WriteToAcquire? then Refresh(phase.read, |old(world).log|) else Idle
      ensures !outcome.Refused? && version == old(world).version ==>
                world.lease == Some(lease) && world.version == version + 1
      ensures ok && old(world).At(p).WriteToAcquire? ==>
                world.log == old(world).log +
                             [Acquired(p, old(world).At(p).read, old(world).clock, Expiration(lease))]
      ensures ok && old(world).At(p).WriteToRelease? ==>
                world.log == old(world).log + [Released(p, old(world).At(p).read, old(world).clock)]
    {
      ok := outcome.Done? && version == world.version;
      Proceed(before, p, outcome);
    }
  }

  class AzureResourceLocker {
    const cluster: Cluster
    const self: Pid

    constructor (cluster: Cluster, self: Pid)
      ensures this.cluster == cluster && this.self == self
    {
      this.cluster := cluster;
      this.self := self;
    }

    method CreateLeaseIfNotExists(ghost before: World, s: Schedule) returns (err: bool)
      requires ForeignSchedule(self, s) && Reaches(cluster.cfg, before, cluster.world)
      requires cluster.world.At(self).Ensure?
      modifies cluster
      ensures Reaches(cluster.cfg, before, cluster.world)
      ensures cluster.world.At(self) == if err then Idle else ReadToAcquire
    {
      var p := self;
      cluster.Yield(before, p, s.others(0));
      var reply := cluster.Get(before, p, s.outcome(0));
      if reply.Failed? {
        return true;
      }
      if reply.NotFound? {
        cluster.Yield(before, p, s.others(1));
        var taken := cluster.world.lease.Some?;
        cluster.Proceed(before, p, s.outcome(1));
        return taken || !s.outcome(1).Done?;
      }
      return false;
    }

    method AcquireLease(ghost before: World, s: Schedule) returns (err: bool)
      requires ForeignSchedule(self, s) && Reaches(cluster.cfg, before, cluster.world)
      requires cluster.world.At(self).ReadToAcquire?
      modifies cluster
      ensures Reaches(cluster.cfg, before, cluster.world)
      ensures if err then cluster.world.At(self).Idle? else cluster.world.At(self).Held?
      ensures !err ==> LastsFrom(cluster.world, cluster.world.At(self).window, before.clock)
    {
      var p, holder := self, cluster.cfg(self).holder;
      cluster.Yield(before, p, s.others(2));
      var reply := cluster.Get(before, p, s.outcome(2));
      if !reply.Found? {
        return true;
      }
      var lease := reply.lease;

      cluster.Yield(before, p, s.others(3));
      var now := cluster.Check(before, p);
      if !HasExpired(lease, now) && !EqualFold(lease.holder, holder) {
        return true;
      }

      cluster.Yield(before, p, s.others(4));
      Later(cluster.cfg, before, cluster.world);
      now := cluster.Now(before, p);
      var updated := lease.(holder := holder, renewTime := Some(Truncate(now)));

      cluster.Yield(before, p, s.others(5));
      var ok := cluster.Update(before, p, updated, reply.version, s.outcome(5));
      if !ok {
        return true;
      }

      ghost var i, written := |cluster.world.log| - 1, cluster.world;
      assert LastsFrom(written, i, before.clock);
      cluster.Yield(before, p, s.others(6));
      Later(cluster.cfg, written, cluster.world);
      cluster.Finish(before, p, s.outcome(6));
      return ForeignRelease(lease) && !s.outcome(6).Done?;
    }

    /** The read at the beginning of a release: while window i is open, the lease read says so. */
    method ReadToRelease(ghost before: World, ghost i: nat, s: Schedule) returns (reply: Reply)
      requires ForeignSchedule(self, s) && Reaches(cluster.cfg, before, cluster.world)
      requires NamedHolders(cluster.cfg) && Inv(cluster.cfg, before)
      requires i < |before.log| && before.log[i].Acquired? && before.log[i].who == self
      requires cluster.world.At(self).ReadToRelease?
      modifies cluster
      ensures Reaches(cluster.cfg, before, cluster.world) && before.log <= cluster.world.log
      ensures cluster.world.At(self) == if reply.Found? then CheckToRelease(reply.lease, reply.version) else Idle
      ensures WindowOpen(cluster.cfg, cluster.world, i) && !reply.Failed? ==>
                && reply.Found? && EqualFold(reply.lease.holder, cluster.cfg(self).holder)
                && cluster.world.log[i].until <= Expiration(reply.lease)
    {
      cluster.Yield(before, self, s.others(0));
      StaysOver(cluster.cfg, before, cluster.world, i);
      if WindowOpen(cluster.cfg, cluster.world, i) {
        OpenMeansHeld(cluster.cfg, before, cluster.world, i);
      }
      reply := cluster.Get(before, self, s.outcome(0));
    }

    /** i is the window that is given back. */
    method ReleaseLease(ghost before: World, ghost i: nat, s: Schedule) returns (err: bool)
      requires ForeignSchedule(self, s) && Reaches(cluster.cfg, before, cluster.world)
      requires NamedHolders(cluster.cfg) && Inv(cluster.cfg, before)
      requires i < |before.log| && before.log[i].Acquired? && before.log[i].who == self
      requires cluster.world.At(self).ReadToRelease?
      modifies cluster
      ensures Reaches(cluster.cfg, before, cluster.world)
      ensures cluster.world.At(self).Idle?
      ensures !err ==> !WindowOpen(cluster.cfg, cluster.world, i)
    {
      var p, holder := self, cluster.cfg(self).holder;
      var reply := ReadToRelease(before, i, s);
      if !reply.Found? {
        return reply.Failed?;
      }
      var lease := reply.lease;
      ghost var read := cluster.world;

      cluster.Yield(before, p, s.others(1));
      StaysOver(cluster.cfg, read, cluster.world, i);
      var now := cluster.world.clock;
      cluster.Proceed(before, p, Done);
      if !EqualFold(lease.holder, holder) || HasExpired(lease, now) {
        return false;
      }

      cluster.Yield(before, p, s.others(2));
      StaysOver(cluster.cfg, before, cluster.world, i);
      var ok := cluster.Update(before, p, ReleasedBy(lease, cluster.cfg(p).name), reply.version, s.outcome(2));
      if ok {
        assert cluster.world.log[|cluster.world.log| - 1].Released?;
      }
      return !ok;
    }

    /**
     Under every schedule of the other components: on success the caller is inside a window it opened
     itself, which lasts for the lease's number of seconds from the call on, and until that window expires or
     is released nobody of another identity is inside one.
     */
    method Lock(s: Schedule) returns (err: bool)
      requires ForeignSchedule(self, s)
      requires NamedHolders(cluster.cfg) && Inv(cluster.cfg, cluster.world)
      requires cluster.world.At(self).Idle?
      modifies cluster
      ensures Inv(cluster.cfg, cluster.world) && Reaches(cluster.cfg, old(cluster.world), cluster.world)
      ensures err ==> cluster.world.At(self).Idle?
      ensures !err ==>
                var w := cluster.world;
                && w.At(self).Held? && w.At(self).window < |w.log|
                && w.log[w.At(self).window].Acquired? && w.log[w.At(self).window].who == self
                && LastsFrom(w, w.At(self).window, old(cluster.world).clock)
                && (forall i: nat :: WindowOpen(cluster.cfg, w, w.At(self).window) && WindowOpen(cluster.cfg, w, i) ==>
                      SameIdentity(cluster.cfg, self, w.log[i].who))
    {
      ghost var before := cluster.world;
      ReachesItself(cluster.cfg, before);
      ReachesStep(cluster.cfg, before, before, LeaseLock.Lock(self));
      cluster.world := Apply(cluster.cfg, cluster.world, LeaseLock.Lock(self));
      err := CreateLeaseIfNotExists(before, s);
      if !err {
        err := AcquireLease(before, s);
      }
      ghost var acts :| cluster.world == Run(cluster.cfg, before, acts);
      InvReached(cluster.cfg, before, acts);
      assert PhaseOk(cluster.cfg, cluster.world, self, cluster.world.At(self));
    }

    /** Unlock ends outside; without an error the window that Lock opened is over. */
    method Unlock(s: Schedule) returns (err: bool)
      requires ForeignSchedule(self, s)
      requires NamedHolders(cluster.cfg) && Inv(cluster.cfg, cluster.world)
      requires cluster.world.At(self).Held?
      modifies cluster
      ensures Inv(cluster.cfg, cluster.world) && Reaches(cluster.cfg, old(cluster.world), cluster.world)
      ensures cluster.world.At(self).Idle?
      ensures !err ==> !WindowOpen(cluster.cfg, cluster.world, old(cluster.world).At(self).window)
    {
      ghost var before, i := cluster.world, cluster.world.At(self).window;
      assert PhaseOk(cluster.cfg, before, self, before.At(self));
      ReachesItself(cluster.cfg, before);
      ReachesStep(cluster.cfg, before, before, LeaseLock.Unlock(self));
      cluster.world := Apply(cluster.cfg, cluster.world, LeaseLock.Unlock(self));
      err := ReleaseLease(before, i, s);
      ghost var acts :| cluster.world == Run(cluster.cfg, before, acts);
      InvReached(cluster.cfg, before, acts);
    }
  }
}
