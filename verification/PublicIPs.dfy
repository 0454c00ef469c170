/** Binding services to public IPs, unbinding them, and releasing the IP (pkg/provider/azure_loadbalancer.go). */
module PublicIPs {
  import opened Text
  import opened Lists
  import opened ServiceTags

  /** The tags that the code reads or writes; a nil value reads like an absent one. */
  datatype Tags = Tags(
    service: Option<string>, legacyService: Option<string>,
    dns: Option<string>, legacyDNS: Option<string>,
    cluster: Option<string>, legacyCluster: Option<string>)

  function FirstOf(a: Option<string>, b: Option<string>): string {
    if a.Some? then a.value else if b.Some? then b.value else ""
  }

  /** getServiceFromPIPServiceTags. */
  function ServiceTag(t: Tags): string {
    FirstOf(t.service, t.legacyService)
  }

  const NO_TAGS := Tags(None, None, None, None, None, None)

  // ---------- Binding ----------

  datatype Names = Names(list: seq<string>) {
    predicate Lacks(name: string) {
      name !in list
    }
  }

  /** The tag with names appended; present names are looked up in the list as it was. */
  function BindTag(tag: string, present: seq<string>, names: seq<string>): string {
    if names == [] then tag
    else
      var n := |names| - 1;
      var t := BindTag(tag, present, names[..n]);
      if t == "" then names[n] else if names[n] in present then t else t + "," + names[n]
  }

  function Bound(tags: Option<Tags>, names: seq<string>): Tags {
    var t := if tags.Some? then tags.value else NO_TAGS.(service := Some(""));
    t.(service := Some(BindTag(ServiceTag(t), Parse(ServiceTag(t)), names)))
  }

  lemma AppendOne(t: string, name: string, present: seq<string>, more: seq<string>)
    requires Plain(name) && Parse(t) == present + more
    ensures Parse(if t == "" then name else if name in present then t else t + "," + name) ==
            present + (more + if name in present then [] else [name])
  {
    if t == "" {
      ParseEmpty();
      ParseWhole(name);
      assert |present + more| == 0;
    } else if name in present {
      assert more + [] == more;
    } else {
      ParseAppend(t, name);
    }
  }

  /** Binding appends exactly the names that were not listed. */
  lemma {:induction false} BindParses(tag: string, names: seq<string>)
    requires forall n :: n in names ==> Plain(n)
    ensures Parse(BindTag(tag, Parse(tag), names)) == Parse(tag) + Filter(names, Names(Parse(tag)).Lacks)
  {
    var present := Parse(tag);
    if names == [] {
      assert present + [] == present;
    } else {
      var k := |names| - 1;
      assert names == names[..k] + [names[k]];
      BindParses(tag, names[..k]);
      FilterSnoc(names[..k], names[k], Names(present).Lacks);
      AppendOne(BindTag(tag, present, names[..k]), names[k], present, Filter(names[..k], Names(present).Lacks));
    }
  }

  // ---------- Unbinding ----------

  /** Without the last name that equals the given one up to case. */
  function RemoveLast(names: seq<string>, name: string): seq<string> {
    if names == [] then []
    else
      var n := |names| - 1;
      if EqualFold(names[n], name) then names[..n] else RemoveLast(names[..n], name) + [names[n]]
  }

  /** The DNS tags go when they name the service. */
  function Undone(t: Tags, name: string): Tags {
    var dns := FirstOf(t.dns, t.legacyDNS);
    if dns != "" && EqualFold(dns, name) then t.(dns := None, legacyDNS := None) else t
  }

  function Unbound(t: Tags, name: string): Tags {
    Undone(t, name).(service := Some(Join(RemoveLast(Parse(ServiceTag(t)), name))))
  }

  /** The value of a tag: that of its present key, or of its legacy key if the present one is absent. */
  predicate Says(present: Option<string>, legacy: Option<string>, value: string) {
    present == Some(value) || (present.None? && legacy == Some(value))
  }

  /** Unbinding clears the DNS label exactly when it is the service's, and leaves the cluster tags. */
  lemma UnboundTags(t: Tags, name: string)
    ensures var u := Unbound(t, name);
            && u.cluster == t.cluster && u.legacyCluster == t.legacyCluster && u.legacyService == t.legacyService
            && (forall d :: Says(t.dns, t.legacyDNS, d) && d != "" && EqualFold(d, name) ==>
                  u.dns == None && u.legacyDNS == None)
            && (forall d :: Says(t.dns, t.legacyDNS, d) && !EqualFold(d, name) ==>
                  u.dns == t.dns && u.legacyDNS == t.legacyDNS)
  {
    var dns := FirstOf(t.dns, t.legacyDNS);
    assert forall d :: Says(t.dns, t.legacyDNS, d) ==> d == dns;
  }

  function Matches(names: seq<string>, name: string): nat {
    if names == [] then 0
    else Matches(names[..|names| - 1], name) + if EqualFold(names[|names| - 1], name) then 1 else 0
  }

  /** A service is off the list after an unbinding exactly when it was not listed twice. */
  lemma {:induction false} GoneExactlyWhen(names: seq<string>, name: string)
    ensures Matches(RemoveLast(names, name), name) == 0 <==> Matches(names, name) <= 1
    ensures forall n :: n in RemoveLast(names, name) ==> n in names
    ensures forall n :: n in names && !EqualFold(n, name) ==> n in RemoveLast(names, name)
  {
    if names != [] {
      var k := |names| - 1;
      GoneExactlyWhen(names[..k], name);
      assert names == names[..k] + [names[k]];
      var rest := RemoveLast(names[..k], name);
      if !EqualFold(names[k], name) {
        assert (rest + [names[k]])[..|rest|] == rest;
      }
    }
  }

  /** One call that binds a new name twice lists it twice, and an unbinding then leaves it listed. */
  lemma BoundTwice(tag: string, name: string)
    requires Plain(name) && name !in Parse(tag)
    ensures var names := Parse(BindTag(tag, Parse(tag), [name, name]));
            names == Parse(tag) + [name, name] && name in RemoveLast(names, name)
  {
    var present := Parse(tag);
    BindParses(tag, [name, name]);
    FilterMembers([name, name], Names(present).Lacks);
    var names := present + [name, name];
    assert names[..|names| - 1] == present + [name];
  }

  // ---------- Runs ----------

  datatype Event = Bind(name: string) | Unbind(name: string)

  /** A tag that does not exist is created by a binding; unbinding from it is an error. */
  function Step(tags: Option<Tags>, e: Event): Option<Tags> {
    match e
    case Bind(n) => Some(Bound(tags, [n]))
    case Unbind(n) => if tags.None? then None else Some(Unbound(tags.value, n))
  }

  function Run(tags: Option<Tags>, es: seq<Event>): Option<Tags> {
    if es == [] then tags else Step(Run(tags, es[..|es| - 1]), es[|es| - 1])
  }

  /** Which services are bound after the events. */
  function BoundServices(start: set<string>, es: seq<Event>): set<string> {
    if es == [] then start
    else
      var before, e := BoundServices(start, es[..|es| - 1]), es[|es| - 1];
      if e.Bind? then before + {e.name} else before - {e.name}
  }

  function Listed(tags: Option<Tags>): seq<string> {
    if tags.None? then [] else Parse(ServiceTag(tags.value))
  }

  /** A service name: "namespace/name" in lower case. */
  predicate IsName(n: string) {
    Plain(n) && Lower(n) == n
  }

  /** The list holds exactly the given services, each once. */
  predicate ListsOnly(names: seq<string>, services: set<string>) {
    && (forall n :: n in names ==> IsName(n))
    && (forall i, j :: 0 <= i < j < |names| ==> names[i] != names[j])
    && (forall n :: n in names ==> n in services)
    && (forall n :: n in services ==> n in names)
  }

  lemma BindStep(tags: Option<Tags>, n: string, services: set<string>)
    requires ListsOnly(Listed(tags), services) && IsName(n)
    ensures ListsOnly(Listed(Some(Bound(tags, [n]))), services + {n})
  {
    var t := if tags.Some? then tags.value else NO_TAGS.(service := Some(""));
    var names := Parse(ServiceTag(t));
    ParseEmpty();
    assert names == Listed(tags);
    BindParses(ServiceTag(t), [n]);
    assert [n][1..] == [];
    assert Filter([n], Names(names).Lacks) == if n in names then [] else [n];
    assert Listed(Some(Bound(tags, [n]))) == names + if n in names then [] else [n];
  }

  lemma {:induction false} RemovedFromDistinct(names: seq<string>, n: string, services: set<string>)
    requires ListsOnly(names, services) && IsName(n)
    ensures ListsOnly(RemoveLast(names, n), services - {n})
  {
    if names != [] {
      var k := |names| - 1;
      var before := names[..k];
      assert names == before + [names[k]];
      assert IsName(names[k]) && names[k] in names;
      if EqualFold(names[k], n) {
        assert Lower(names[k]) == names[k] && Lower(n) == n;
      } else {
        assert ListsOnly(before, services - {names[k]});
        RemovedFromDistinct(before, n, services - {names[k]});
        assert names[k] !in RemoveLast(before, n);
      }
    }
  }

  lemma UnbindStep(t: Tags, n: string, services: set<string>)
    requires ListsOnly(Listed(Some(t)), services) && IsName(n)
    ensures ListsOnly(Listed(Some(Unbound(t, n))), services - {n})
  {
    var names := Parse(ServiceTag(t));
    RemovedFromDistinct(names, n, services);
    ParseJoin(RemoveLast(names, n));
  }

  /** Over any run of bindings and unbindings the parsed tag lists exactly the bound services, each once. */
  lemma {:induction false} TagListsBound(tags: Option<Tags>, start: set<string>, es: seq<Event>)
    requires ListsOnly(Listed(tags), start) && forall e :: e in es ==> IsName(e.name)
    ensures ListsOnly(Listed(Run(tags, es)), BoundServices(start, es))
  {
    if es != [] {
      var k := |es| - 1;
      TagListsBound(tags, start, es[..k]);
      var before, services := Run(tags, es[..k]), BoundServices(start, es[..k]);
      var e := es[k];
      match e {
        case Bind(n) => BindStep(before, n, services);
        case Unbind(n) =>
          if before.Some? {
            UnbindStep(before.value, n, services);
          }
      }
    }
  }

  // ---------- Releasing ----------

  /** The service as a public IP sees it; selects is isServiceSelectPIP. */
  datatype Service = Service(name: string, clusterName: string, selects: bool)

  /** serviceOwnsPublicIP: whether it is owned, and whether its user created it; nobody owns one without an IP. */
  function Owns(s: Service, hasIP: bool, tags: Option<Tags>): (r: (bool, bool))
    ensures r.1 <==> hasIP && (tags.None? || ServiceTag(tags.value) == "")
  {
    if !hasIP then (false, false)
    else if tags.None? || ServiceTag(tags.value) == "" then (s.selects, true)
    else if Matches(Listed(tags), s.name) > 0 then
      var cluster := FirstOf(tags.value.cluster, tags.value.legacyCluster);
      (cluster == "" || EqualFold(cluster, s.clusterName), false)
    else (s.selects, false)
  }

  /** The service tag lists the service. */
  predicate ListedFor(tags: Option<Tags>, name: string) {
    exists n :: n in Listed(tags) && EqualFold(n, name)
  }

  /** No service tag, or an empty one: the address was created by its user. */
  ghost predicate UserMade(tags: Option<Tags>) {
    tags.None? || forall v :: Says(tags.value.service, tags.value.legacyService, v) ==> v == ""
  }

  /** The cluster tag is absent, empty, or of the service's cluster. */
  ghost predicate OfCluster(t: Tags, cluster: string) {
    forall v :: Says(t.cluster, t.legacyCluster, v) && v != "" ==> EqualFold(v, cluster)
  }

  /** A listed service owns the address if the cluster is right, any other if it selects the address. */
  ghost predicate IsOwner(s: Service, hasIP: bool, tags: Option<Tags>) {
    hasIP && if ListedFor(tags, s.name) then tags.Some? && OfCluster(tags.value, s.clusterName) else s.selects
  }

  lemma {:induction false} MatchesExactly(names: seq<string>, name: string)
    ensures Matches(names, name) > 0 <==> exists n :: n in names && EqualFold(n, name)
  {
    if names != [] {
      var k := |names| - 1;
      assert names == names[..k] + [names[k]];
      MatchesExactly(names[..k], name);
    }
  }

  lemma SaysFirst(present: Option<string>, legacy: Option<string>)
    ensures forall v :: Says(present, legacy, v) ==> v == FirstOf(present, legacy)
    ensures FirstOf(present, legacy) != "" ==> Says(present, legacy, FirstOf(present, legacy))
  {
  }

  lemma OwnsExactly(s: Service, hasIP: bool, tags: Option<Tags>)
    ensures Owns(s, hasIP, tags) == (IsOwner(s, hasIP, tags), hasIP && UserMade(tags))
  {
    if tags.Some? {
      SaysFirst(tags.value.service, tags.value.legacyService);
      SaysFirst(tags.value.cluster, tags.value.legacyCluster);
      if ServiceTag(tags.value) == "" {
        ParseEmpty();
      }
    }
    MatchesExactly(Listed(tags), s.name);
  }

  /**
   What the service wants now, the name and IP tags of the address against the desired ones, and how tagging
   as configured changes its tags.
   */
  datatype Wish = Wish(
    wantLB: bool, isInternal: bool, name: string, desiredName: string, tagsRequested: bool, tagsEquivalent: bool,
    retag: Tags -> Tags)
  {
    /** The address is not the one that the service wants. */
    predicate Unwanted() {
      isInternal || name != desiredName || (tagsRequested && !tagsEquivalent)
    }
  }

  /** shouldReleaseExistingOwnedPublicIP. */
  predicate ShouldRelease(references: nat, userAssigned: bool, w: Wish) {
    && !userAssigned
    && (!w.wantLB ==> references == 0)
    && (w.wantLB ==> references <= 1)
    && (!w.wantLB || w.Unwanted())
  }

  /** What happens to an address when a service is reconciled: its tags, and whether it is released. */
  function Outcome(s: Service, hasIP: bool, tags: Option<Tags>, w: Wish): (Option<Tags>, bool) {
    var (owns, user) := Owns(s, hasIP, tags);
    if !owns then (tags, false)
    else
      var unbinds := !w.wantLB && !user;
      var references := if unbinds then RemoveLast(Listed(tags), s.name) else Listed(tags);
      var after := if unbinds then Some(Unbound(tags.value, s.name)) else tags;
      (if user then after else Some(w.retag(after.value)), ShouldRelease(|references|, user, w))
  }

  /**
   After any run, a service that is deleted releases an address exactly when it owns it, the system created
   it, and no other service is bound to it.
   */
  lemma ReleasedExactlyWhenLast(
      tags: Option<Tags>, start: set<string>, es: seq<Event>, s: Service, hasIP: bool, w: Wish)
    requires ListsOnly(Listed(tags), start) && IsName(s.name) && forall e :: e in es ==> IsName(e.name)
    requires !w.wantLB
    ensures var now := Run(tags, es);
            Outcome(s, hasIP, now, w).1 <==>
            IsOwner(s, hasIP, now) && !UserMade(now) && BoundServices(start, es) <= {s.name}
  {
    OwnsExactly(s, hasIP, Run(tags, es));
    TagListsBound(tags, start, es);
    var names, services := Listed(Run(tags, es)), BoundServices(start, es);
    RemovedFromDistinct(names, s.name, services);
    var rest := RemoveLast(names, s.name);
    if services <= {s.name} {
      assert services - {s.name} == {};
      assert forall n :: n in rest ==> n in services - {s.name};
      EmptyList(rest);
    } else {
      var other :| other in services && other != s.name;
      assert other in rest;
    }
  }

  lemma {:induction false} ListLength(names: seq<string>, services: set<string>)
    requires ListsOnly(names, services)
    ensures |names| == |services|
  {
    if names == [] {
      assert services == {};
    } else {
      var k := |names| - 1;
      var before := names[..k];
      assert names == before + [names[k]];
      assert ListsOnly(before, services - {names[k]});
      ListLength(before, services - {names[k]});
    }
  }

  /**
   After any run, a service that still wants a load balancer releases an address exactly when it owns it, the
   system created it, at most one service is bound to it, and it is not the one that the service wants.
   */
  lemma ReleasedWhileWanted(
      tags: Option<Tags>, start: set<string>, es: seq<Event>, s: Service, hasIP: bool, w: Wish)
    requires ListsOnly(Listed(tags), start) && forall e :: e in es ==> IsName(e.name)
    requires w.wantLB
    ensures var now := Run(tags, es);
            Outcome(s, hasIP, now, w).1 <==>
            && IsOwner(s, hasIP, now) && !UserMade(now) && |BoundServices(start, es)| <= 1
            && (w.isInternal || w.name != w.desiredName || (w.tagsRequested && !w.tagsEquivalent))
  {
    OwnsExactly(s, hasIP, Run(tags, es));
    TagListsBound(tags, start, es);
    ListLength(Listed(Run(tags, es)), BoundServices(start, es));
  }

  /** The one service that is bound need not be the one that releases. */
  lemma ReleasesAnothersAddress(other: string, s: Service, w: Wish)
    requires IsName(other) && !EqualFold(other, s.name) && s.selects && w.wantLB && w.Unwanted()
    ensures var tags := Some(NO_TAGS.(service := Some(other)));
            Listed(tags) == [other] && Outcome(s, true, tags, w).1
  {
    ParseWhole(other);
    assert [other][..0] == [];
    assert Matches([other], s.name) == 0;
  }

  lemma EmptyList(names: seq<string>)
    requires forall n :: n !in names
    ensures names == []
  {
    if names != [] {
      HasMember(names);
    }
  }

  lemma HasMember(names: seq<string>)
    requires names != []
    ensures exists n :: n in names
  {
    assert names[0] in names;
  }

  // ---------- The address ----------

  method AppendNames(start: string, names: seq<string>) returns (tag: string, added: bool)
    ensures tag == BindTag(start, Parse(start), names)
    ensures (forall n :: n in names ==> Plain(n)) ==> (added <==> Parse(tag) != Parse(start))
  {
    var present := Parse(start);
    tag, added := start, false;
    for k := 0 to |names|
      invariant tag == BindTag(start, present, names[..k])
      invariant added ==> exists i :: 0 <= i < k && (names[i] !in present || BindTag(start, present, names[..i]) == "")
      invariant !added ==> forall i :: 0 <= i < k ==> names[i] in present
    {
      assert names[..k + 1][..k] == names[..k];
      if tag == "" {
        tag, added := names[k], true;
      } else if names[k] !in present {
        tag, added := tag + "," + names[k], true;
      }
    }
    assert names[..|names|] == names;
    if forall n :: n in names ==> Plain(n) {
      AddedShows(start, names, added);
    }
  }

  class PublicIP {
    const hasIP: bool
    var tags: Option<Tags>

    constructor (hasIP: bool, tags: Option<Tags>)
      ensures this.hasIP == hasIP && this.tags == tags
    {
      this.hasIP := hasIP;
      this.tags := tags;
    }

    /** bindServicesToPIP. */
    method BindServices(names: seq<string>, replace: bool) returns (added: bool)
      modifies this
      ensures tags == Some(if replace then
                             (if old(tags).Some? then old(tags).value else NO_TAGS).(service := Some(Join(names)))
                           else Bound(old(tags), names))
      ensures (forall n :: n in names ==> Plain(n)) && !replace ==> (added <==> Listed(tags) != Listed(old(tags)))
    {
      if tags.None? {
        tags := Some(NO_TAGS.(service := Some("")));
      }
      if replace {
        tags := Some(tags.value.(service := Some(Join(names))));
        return false;
      }
      ParseEmpty();
      var tag;
      tag, added := AppendNames(ServiceTag(tags.value), names);
      tags := Some(tags.value.(service := Some(tag)));
    }

    /** unbindServiceFromPIP. */
    method UnbindService(name: string, userAssigned: bool) returns (rest: seq<string>, err: bool)
      modifies this
      ensures err <==> old(tags).None?
      ensures err ==> tags == old(tags)
      ensures !err && !userAssigned ==>
                rest == RemoveLast(Listed(old(tags)), name) && tags == Some(Unbound(old(tags).value, name))
      ensures !err && userAssigned ==> rest == [] && tags == Some(Undone(old(tags).value, name))
    {
      if tags.None? {
        return [], true;
      }
      var dns := FirstOf(tags.value.dns, tags.value.legacyDNS);
      if dns != "" && EqualFold(dns, name) {
        tags := Some(tags.value.(dns := None, legacyDNS := None));
      }
      if userAssigned {
        return [], false;
      }
      rest := WithoutLast(Parse(ServiceTag(tags.value)), name);
      var _ := BindServices(rest, true);
      err := false;
    }

    /** What getPublicIPUpdates does with one address of the service's IP family. */
    method Reconcile(s: Service, w: Wish) returns (release: bool)
      modifies this
      ensures (tags, release) == Outcome(s, hasIP, old(tags), w)
    {
      var owns, user := OwnedBy(s);
      if !owns {
        return false;
      }
      var references := if tags.None? then [] else Parse(ServiceTag(tags.value));
      if !w.wantLB && !user {
        var err;
        references, err := UnbindService(s.name, user);
      }
      if !user {
        tags := Some(w.retag(tags.value));
      }
      release := ShouldRelease(|references|, user, w);
    }

    method OwnedBy(s: Service) returns (owns: bool, user: bool)
      ensures (owns, user) == Owns(s, hasIP, tags)
    {
      if !hasIP {
        return false, false;
      }
      if tags.None? || ServiceTag(tags.value) == "" {
        return s.selects, true;
      }
      var named := IsListed(Parse(ServiceTag(tags.value)), s.name);
      if named {
        var cluster := FirstOf(tags.value.cluster, tags.value.legacyCluster);
        return cluster == "" || EqualFold(cluster, s.clusterName), false;
      }
      return s.selects, false;
    }
  }

  /** isSVCNameInPIPTag. */
  method IsListed(names: seq<string>, name: string) returns (found: bool)
    ensures found <==> Matches(names, name) > 0
  {
    for k := 0 to |names|
      invariant Matches(names[..k], name) == 0
    {
      assert names[..k + 1][..k] == names[..k];
      if EqualFold(names[k], name) {
        MatchesGrow(names, name, k + 1);
        return true;
      }
    }
    assert names[..|names|] == names;
    return false;
  }

  lemma {:induction false} MatchesGrow(names: seq<string>, name: string, k: nat)
    requires k <= |names|
    ensures Matches(names[..k], name) <= Matches(names, name)
  {
    if k < |names| {
      var n := |names| - 1;
      assert names[..n][..k] == names[..k];
      MatchesGrow(names[..n], name, k);
    } else {
      assert names[..k] == names;
    }
  }

  /** Searches from the end and deletes the first match. */
  method WithoutLast(names: seq<string>, name: string) returns (rest: seq<string>)
    ensures rest == RemoveLast(names, name)
  {
    var i := |names|;
    assert names[..i] == names;
    while i > 0
      invariant 0 <= i <= |names|
      invariant RemoveLast(names, name) == RemoveLast(names[..i], name) + names[i..]
    {
      i := i - 1;
      assert names[..i + 1][..i] == names[..i];
      if EqualFold(names[i], name) {
        return names[..i] + names[i + 1..];
      }
      assert names[i..] == [names[i]] + names[i + 1..];
      assert RemoveLast(names[..i + 1], name) == RemoveLast(names[..i], name) + [names[i]];
    }
    return names;
  }

  lemma AddedShows(tag: string, names: seq<string>, added: bool)
    requires forall n :: n in names ==> Plain(n)
    requires added ==> exists i :: 0 <= i < |names| && (names[i] !in Parse(tag) || BindTag(tag, Parse(tag), names[..i]) == "")
    requires !added ==> forall i :: 0 <= i < |names| ==> names[i] in Parse(tag)
    ensures added <==> Parse(BindTag(tag, Parse(tag), names)) != Parse(tag)
  {
    var present := Parse(tag);
    var more := Filter(names, Names(present).Lacks);
    BindParses(tag, names);
    FilterMembers(names, Names(present).Lacks);
    if added {
      var i :| 0 <= i < |names| && (names[i] !in present || BindTag(tag, present, names[..i]) == "");
      if BindTag(tag, present, names[..i]) == "" {
        BindParses(tag, names[..i]);
        ParseEmpty();
        assert |present| == 0;
      }
      assert names[i] in more;
    } else {
      EmptyList(more);
    }
  }
}
