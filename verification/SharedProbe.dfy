/**
 Health probes of a load balancer, one of which may be shared by all services with the cluster traffic policy
 (pkg/provider/azure_loadbalancer_healthprobe.go, pkg/provider/azure_loadbalancer.go).
 */
module SharedProbe {
  import opened Text
  import opened Lists
  import opened OwnedLists
  import opened LbRules

  /** refs are the IDs of the rules that use the probe; unset numbers and texts are 0 and "". */
  datatype Probe = Probe(
    name: string, port: int, protocol: string, path: string, interval: int, threshold: int, refs: seq<string>)

  /** The test in findProbe. */
  predicate SameProbe(a: Probe, b: Probe) {
    && EqualFold(a.name, b.name)
    && a.port == b.port
    && EqualFold(a.protocol, b.protocol)
    && EqualFold(a.path, b.path)
    && a.interval == b.interval
    && a.threshold == b.threshold
  }

  predicate IsShared(p: Probe) {
    EqualFold(p.name, SHARED_PROBE)
  }

  /** The configured port and path; buildClusterServiceSharedProbe fixes the rest. */
  datatype Config = Config(port: int, path: string, sharedMode: bool) {
    function Build(): Probe {
      Probe(SHARED_PROBE, port, "Http", path, 5, 2, [])
    }
  }

  /** getLastSegment: what follows the last "/". */
  function LastSegment(id: string): (name: string)
    ensures |name| <= |id| && name == id[|id| - |name|..] && '/' !in name
    ensures |name| < |id| ==> id[|id| - |name| - 1] == '/'
  {
    if id == "" || id[|id| - 1] == '/' then ""
    else LastSegment(id[..|id| - 1]) + [id[|id| - 1]]
  }

  /** A reference that getLastSegment accepts. */
  predicate Readable(ref: string) {
    LastSegment(ref) != ""
  }

  datatype Service = Service(prefix: string, local: bool) {
    predicate Owns(p: Probe) {
      OwnsName(prefix, local, p.name)
    }

    /** A reference by a rule of another service. */
    predicate Foreign(ref: string) {
      Readable(ref) && !OwnsName(prefix, local, LastSegment(ref))
    }

    /** References are looked at for others only when the probe may go. */
    function Wants(considered: bool): string -> bool {
      if considered then Foreign else Never
    }

    predicate Never(ref: string) {
      false
    }

    function AsJob(expected: seq<Probe>): Job<Probe> {
      Job(Owns, expected, SameProbe)
    }
  }

  // ---------- keepSharedProbe ----------

  /** Nothing found, an unreadable reference, or a reference of another service that needs the probe. */
  datatype Verdict = Nothing | Broken | Needed

  function Judge(refs: seq<string>, ok: string -> bool, wants: string -> bool): Verdict {
    if refs == [] then Nothing
    else if !ok(refs[0]) then Broken
    else if wants(refs[0]) then Needed
    else Judge(refs[1..], ok, wants)
  }

  /** The references of all probes with the shared name, in order. */
  function SharedRefs(probes: seq<Probe>): seq<string> {
    if probes == [] then []
    else (if IsShared(probes[0]) then probes[0].refs else []) + SharedRefs(probes[1..])
  }

  predicate Considered(cfg: Config, wantLB: bool) {
    !wantLB || !cfg.sharedMode
  }

  /** The expected probes after keepSharedProbe, whose error is not looked at. */
  function Expected(probes: seq<Probe>, s: Service, cfg: Config, wantLB: bool, expected: seq<Probe>): seq<Probe> {
    match Judge(SharedRefs(probes), Readable, s.Wants(Considered(cfg, wantLB)))
    case Nothing => expected
    case Broken => []
    case Needed => expected + [cfg.Build()]
  }

  function AfterReconcile(probes: seq<Probe>, s: Service, cfg: Config, wantLB: bool, expected: seq<Probe>): seq<Probe> {
    Reconciled(probes, s.AsJob(Expected(probes, s, cfg, wantLB, expected)))
  }

  /** A wanting reference, with only readable ones in front of it. */
  predicate WantedAt(refs: seq<string>, ok: string -> bool, wants: string -> bool, k: nat) {
    k < |refs| && ok(refs[k]) && wants(refs[k]) && forall j :: 0 <= j < k ==> ok(refs[j])
  }

  lemma {:induction false} WantedIsNeeded(refs: seq<string>, ok: string -> bool, wants: string -> bool, k: nat)
    requires WantedAt(refs, ok, wants, k)
    ensures Judge(refs, ok, wants) == Needed
  {
    if k > 0 {
      assert forall j :: 0 <= j < k - 1 ==> refs[1..][j] == refs[j + 1];
      WantedIsNeeded(refs[1..], ok, wants, k - 1);
    }
  }

  lemma {:induction false} NeededIsWanted(refs: seq<string>, ok: string -> bool, wants: string -> bool) returns (k: nat)
    requires Judge(refs, ok, wants) == Needed
    ensures WantedAt(refs, ok, wants, k)
  {
    k := 0;
    if !wants(refs[0]) {
      var i := NeededIsWanted(refs[1..], ok, wants);
      assert forall j :: 1 <= j < i + 1 ==> refs[j] == refs[1..][j - 1];
      k := i + 1;
    }
  }

  /** A needed probe is there after the call, whatever else was expected. */
  lemma NeededIsKept(probes: seq<Probe>, s: Service, cfg: Config, wantLB: bool, expected: seq<Probe>)
    requires Judge(SharedRefs(probes), Readable, s.Wants(Considered(cfg, wantLB))) == Needed
    ensures Found(AfterReconcile(probes, s, cfg, wantLB, expected), cfg.Build(), SameProbe)
  {
    var all := Expected(probes, s, cfg, wantLB, expected);
    var job := s.AsJob(all);
    assert Reflexive(job);
    assert all[|all| - 1] == cfg.Build();
    ReconciledMatches(probes, job);
  }

  /**
   A deleted service leaves a probe with the shared name exactly when a reference of another service comes
   before any unreadable one, or when there is such a probe that the service does not own.
   */
  lemma SharedProbeSurvives(probes: seq<Probe>, s: Service, cfg: Config)
    ensures (exists p :: p in AfterReconcile(probes, s, cfg, false, []) && IsShared(p)) <==>
            || (exists p :: p in probes && IsShared(p) && !s.Owns(p))
            || exists k: nat :: WantedAt(SharedRefs(probes), Readable, s.Foreign, k)
  {
    var refs := SharedRefs(probes);
    var after := AfterReconcile(probes, s, cfg, false, []);
    forall k: nat | WantedAt(refs, Readable, s.Foreign, k)
      ensures Judge(refs, Readable, s.Foreign) == Needed
    {
      WantedIsNeeded(refs, Readable, s.Foreign, k);
    }
    if Judge(refs, Readable, s.Foreign) == Needed {
      var first := NeededIsWanted(refs, Readable, s.Foreign);
      NeededIsKept(probes, s, cfg, false, []);
      var k :| 0 <= k < |after| && SameProbe(after[k], cfg.Build());
      assert after[k] in after && IsShared(after[k]);
    } else {
      var job := s.AsJob([]);
      FilterMembers(probes, job.Keeps);
      assert after == Filter(probes, job.Keeps) + [];
      assert forall p :: p in after <==> p in probes && !s.Owns(p);
    }
  }

  /** One unreadable reference in front is enough to drop a probe that another service uses. */
  lemma UnreadableReferenceDropsProbe(s: Service, cfg: Config, other: string)
    requires !s.local
    ensures var probe := cfg.Build().(refs := ["/", other]);
            AfterReconcile([probe], s, cfg, false, []) == []
  {
    var probe := cfg.Build().(refs := ["/", other]);
    assert [probe][1..] == [] && probe.refs + [] == probe.refs;
    assert SharedRefs([probe]) == probe.refs;
    assert !Readable(probe.refs[0]);
    var job := s.AsJob([]);
    assert !job.Keeps(probe);
    FilterNone([probe], job.Keeps);
  }

  // ---------- The scan ----------

  /** keepSharedProbe. */
  method KeepSharedProbe(probes: seq<Probe>, s: Service, cfg: Config, wantLB: bool, expected: seq<Probe>)
    returns (all: seq<Probe>, err: bool)
    ensures all == Expected(probes, s, cfg, wantLB, expected)
    ensures err <==> Judge(SharedRefs(probes), Readable, s.Wants(Considered(cfg, wantLB))) == Broken
  {
    var verdict := ScanProbes(probes, s, cfg.sharedMode, wantLB);
    match verdict {
      case Broken => return [], true;
      case Needed => return expected + [cfg.Build()], false;
      case Nothing => return expected, false;
    }
  }

  method ScanProbes(probes: seq<Probe>, s: Service, sharedMode: bool, wantLB: bool) returns (verdict: Verdict)
    ensures verdict == Judge(SharedRefs(probes), Readable, s.Wants(!wantLB || !sharedMode))
  {
    var consider := !wantLB;
    ghost var wants := s.Wants(!wantLB || !sharedMode);
    for i := 0 to |probes|
      invariant consider == !wantLB || (consider && !sharedMode)
      invariant Judge(SharedRefs(probes), Readable, wants) == Judge(SharedRefs(probes[i..]), Readable, wants)
    {
      RefsFrom(probes, i);
      if IsShared(probes[i]) {
        if !sharedMode {
          consider := true;
        }
        JudgeConcat(probes[i].refs, SharedRefs(probes[i + 1..]), Readable, wants);
        verdict := ScanRefs(probes[i].refs, s, consider);
        if verdict != Nothing {
          return;
        }
      }
    }
    return Nothing;
  }

  lemma RefsFrom(probes: seq<Probe>, i: nat)
    requires i < |probes|
    ensures var rest := SharedRefs(probes[i + 1..]);
            SharedRefs(probes[i..]) == if IsShared(probes[i]) then probes[i].refs + rest else rest
  {
  }

  lemma {:induction false} JudgeConcat(refs: seq<string>, more: seq<string>, ok: string -> bool, wants: string -> bool)
    ensures Judge(refs + more, ok, wants) ==
            if Judge(refs, ok, wants) == Nothing then Judge(more, ok, wants) else Judge(refs, ok, wants)
  {
    if refs == [] {
      assert refs + more == more;
    } else {
      assert (refs + more)[1..] == refs[1..] + more;
      JudgeConcat(refs[1..], more, ok, wants);
    }
  }

  method ScanRefs(refs: seq<string>, s: Service, consider: bool) returns (verdict: Verdict)
    ensures verdict == Judge(refs, Readable, s.Wants(consider))
  {
    for k := 0 to |refs|
      invariant Judge(refs, Readable, s.Wants(consider)) == Judge(refs[k..], Readable, s.Wants(consider))
    {
      assert refs[k..][1..] == refs[k + 1..];
      if LastSegment(refs[k]) == "" {
        return Broken;
      }
      if !OwnsName(s.prefix, s.local, LastSegment(refs[k])) && consider {
        return Needed;
      }
    }
    return Nothing;
  }
}
