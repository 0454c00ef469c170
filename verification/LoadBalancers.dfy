/** A load balancer whose rules and probes are reconciled in place (pkg/provider/azure_loadbalancer.go). */
module LoadBalancers {
  import opened LbRules
  import opened OwnedLists
  import opened RuleContents
  import opened SharedProbe

  class LoadBalancer {
    var rules: seq<Rule>
    var probes: seq<Probe>

    constructor (rules: seq<Rule>, probes: seq<Probe>)
      ensures this.rules == rules && this.probes == probes
    {
      this.rules, this.probes := rules, probes;
    }

    /** reconcileLBRules: what it reports is what it did, and a repeat reports nothing. */
    method ReconcileRules(c: RuleCall) returns (dirty: bool)
      modifies this`rules
      ensures rules == Reconciled(old(rules), c.AsJob())
      ensures !dirty ==> rules == old(rules)
      ensures WellFormed(c) ==> (dirty <==> rules != old(rules)) && Settled(rules, c)
      ensures WellFormed(c) ==> HoldsRulesOf(rules, c) && Reconciled(rules, c.AsJob()) == rules
    {
      if WellFormed(c) {
        CallIsReflexive(c);
        ReconciledTwice(rules, c.AsJob());
        OwnCallSettles(rules, c);
        SettledHolds(Reconciled(rules, c.AsJob()), c);
      }
      var updated;
      updated, dirty := Reconcile(rules, c.AsJob());
      if dirty {
        rules := updated;
      }
    }

    /** reconcileLBProbes. */
    method ReconcileProbes(s: Service, cfg: Config, wantLB: bool, expected: seq<Probe>) returns (dirty: bool)
      modifies this`probes
      ensures probes == AfterReconcile(old(probes), s, cfg, wantLB, expected)
      ensures dirty <==> probes != old(probes)
      ensures Judge(SharedRefs(old(probes)), Readable, s.Wants(Considered(cfg, wantLB))) == Needed ==>
                Found(probes, cfg.Build(), SameProbe)
    {
      var all, _ := KeepSharedProbe(probes, s, cfg, wantLB, expected);
      assert Reflexive(s.AsJob(all));
      if Judge(SharedRefs(probes), Readable, s.Wants(Considered(cfg, wantLB))) == Needed {
        NeededIsKept(probes, s, cfg, wantLB, expected);
      }
      var updated;
      updated, dirty := Reconcile(probes, s.AsJob(all));
      if dirty {
        probes := updated;
      }
    }
  }
}
