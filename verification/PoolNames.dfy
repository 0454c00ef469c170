/** Names of backend pools (pkg/provider/azure_local_services.go, pkg/provider/azure_standard.go). */
module PoolNames {
  import opened Text

  function Dashed(s: string): (r: string)
    ensures |r| == |s|
  {
    seq(|s|, i requires 0 <= i < |s| => if s[i] == '/' then '-' else s[i])
  }

  /** getLocalServiceBackendPoolName; the service is "namespace/name". */
  function LocalPoolName(service: string, ipv6: bool): string {
    Lower(Dashed(service)) + if ipv6 then "-ipv6" else ""
  }

  /** getBackendPoolName. */
  function ClusterPoolName(cluster: string, ipv6: bool): string {
    cluster + if ipv6 then "-IPv6" else ""
  }

  /** getBackendPoolNameForService. */
  function PoolNameFor(service: string, local: bool, multi: bool, cluster: string, ipv6: bool): string {
    if local && multi then LocalPoolName(service, ipv6) else ClusterPoolName(cluster, ipv6)
  }

  /** isBackendPoolIPv6: how the IP family of a pool is read off its name. */
  predicate IsIPv6Pool(name: string) {
    |name| >= 5 && Lower(name)[|name| - 5..] == "-ipv6"
  }

  /** The family that a pool was named for is the one read off its name, unless the IPv4 name ends like an IPv6 one. */
  lemma FamilyExactlyWhen(service: string, local: bool, multi: bool, cluster: string, ipv6: bool)
    ensures IsIPv6Pool(PoolNameFor(service, local, multi, cluster, ipv6)) == ipv6 <==>
            ipv6 || !IsIPv6Pool(if local && multi then Lower(Dashed(service)) else cluster)
  {
    var name := PoolNameFor(service, local, multi, cluster, ipv6);
    if ipv6 {
      var base := if local && multi then Lower(Dashed(service)) else cluster;
      var k := |base|;
      assert name[k..] == "-ipv6" || name[k..] == "-IPv6";
      assert Lower(name)[k..] == Lower(name[k..]);
      assert Lower("-IPv6") == "-ipv6" && Lower("-ipv6") == "-ipv6";
    }
  }

  /** So the IPv4 pool of a cluster whose name ends so is taken for an IPv6 pool. */
  lemma FamilyMisread(base: string)
    ensures IsIPv6Pool(PoolNameFor("", false, false, base + "-ipv6", false))
  {
    var name := base + "-ipv6";
    assert Lower(name)[|base|..] == Lower(name[|base|..]);
    assert name[|base|..] == "-ipv6" && Lower("-ipv6") == "-ipv6";
  }

  function FullName(namespace: string, name: string): string {
    namespace + "/" + name
  }

  /** A lower-case name without slash, as Kubernetes names are. */
  predicate IsLabel(s: string) {
    Lower(s) == s && '/' !in s
  }

  lemma PoolNameIs(namespace: string, name: string, ipv6: bool)
    requires IsLabel(namespace) && IsLabel(name)
    ensures LocalPoolName(FullName(namespace, name), ipv6) == namespace + "-" + name + if ipv6 then "-ipv6" else ""
  {
    var full := FullName(namespace, name);
    var dashed := namespace + "-" + name;
    assert Dashed(full) == dashed;
    forall i | 0 <= i < |dashed|
      ensures Lower(dashed)[i] == dashed[i]
    {
      if i < |namespace| {
        assert Lower(namespace)[i] == namespace[i];
      } else if i > |namespace| {
        assert Lower(name)[i - |namespace| - 1] == name[i - |namespace| - 1];
      }
    }
    assert Lower(dashed) == dashed;
  }

  /** Two services whose namespaces have no dash have one pool exactly when they are the same service. */
  lemma PoolsTellServicesApart(ns: string, name: string, ns': string, name': string, ipv6: bool)
    requires IsLabel(ns) && IsLabel(name) && IsLabel(ns') && IsLabel(name')
    requires '-' !in ns && '-' !in ns'
    ensures LocalPoolName(FullName(ns, name), ipv6) == LocalPoolName(FullName(ns', name'), ipv6) <==>
            ns == ns' && name == name'
  {
    PoolNameIs(ns, name, ipv6);
    PoolNameIs(ns', name', ipv6);
    var x, y := ns + "-" + name, ns' + "-" + name';
    var suffix := if ipv6 then "-ipv6" else "";
    if x + suffix == y + suffix {
      assert x == (x + suffix)[..|x|] && y == (y + suffix)[..|y|];
      assert x[|ns|] == '-' && y[|ns'|] == '-';
      assert forall i :: 0 <= i < |ns| ==> x[i] == ns[i] && ns[i] in ns;
      assert forall i :: 0 <= i < |ns'| ==> y[i] == ns'[i] && ns'[i] in ns';
      assert |ns| == |ns'|;
      assert ns == x[..|ns|] && ns' == y[..|ns'|];
      assert name == x[|ns| + 1..] && name' == y[|ns'| + 1..];
    }
  }

  /** With a dash in a namespace two services can have one pool. */
  lemma OnePoolForTwoServices(a: string, b: string, c: string, ipv6: bool)
    requires IsLabel(a) && IsLabel(b) && IsLabel(c)
    ensures LocalPoolName(FullName(a + "-" + b, c), ipv6) == LocalPoolName(FullName(a, b + "-" + c), ipv6)
  {
    assert Dashed(FullName(a + "-" + b, c)) == Dashed(FullName(a, b + "-" + c));
  }
}
