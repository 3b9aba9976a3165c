/** When discovery can push at all: which merges over an accepted static configuration are accepted. */
module MergeValidity {
  import opened Cascade
  import opened Config
  import opened CronJobs
  import opened DependencyGraph
  import opened Discovery
  import opened Validation

  lemma EdgeIsDeclared(cs: seq<ContainerConfig>)
    requires DistinctNames(cs)
    ensures forall a, b :: Edge(Deps(cs), a, b) <==> Declares(cs, a, b)
  {}

  lemma PartsOfDistinct(a: seq<ContainerConfig>, b: seq<ContainerConfig>)
    requires DistinctNames(a + b)
    ensures DistinctNames(a) && DistinctNames(b)
    ensures forall c, d :: c in a && d in b ==> c.name != d.name
  {
    forall i, j | 0 <= i < |a| && 0 <= j < |b| ensures a[i].name != b[j].name {
      assert (a + b)[i] == a[i] && (a + b)[|a| + j] == b[j];
    }
    forall i, j | 0 <= i < j < |b| ensures b[i].name != b[j].name {
      assert (a + b)[|a| + i] == b[i] && (a + b)[|a| + j] == b[j];
    }
    forall i, j | 0 <= i < j < |a| ensures a[i].name != a[j].name {
      assert (a + b)[i] == a[i] && (a + b)[j] == a[j];
    }
  }

  lemma PartsDeclare(fixed: seq<ContainerConfig>, kept: seq<ContainerConfig>, lows: set<string>)
    requires forall n :: n in lows <==> Named(fixed, n)
    requires forall c, d :: c in fixed && d in c.dependsOn ==> Named(fixed, d)
    requires forall c, d :: c in fixed && d in kept ==> c.name != d.name
    ensures forall a, b :: Declares(fixed, a, b) ==> a in lows && b in lows
    ensures forall a, b :: Declares(kept, a, b) ==> a !in lows
    ensures forall a, b :: Declares(fixed + kept, a, b) <==> Declares(fixed, a, b) || Declares(kept, a, b)
  {}

  /** Static containers depend on static ones only, so a merge has a cycle exactly when the discovered
      containers have one among themselves. */
  lemma MergeAcyclicIff(fixed: seq<ContainerConfig>, kept: seq<ContainerConfig>)
    requires DistinctNames(fixed + kept) && Acyclic(Deps(fixed))
    requires forall c, d :: c in fixed && d in c.dependsOn ==> Named(fixed, d)
    ensures Acyclic(Deps(fixed + kept)) <==> Acyclic(Deps(kept))
  {
    var all, lows := fixed + kept, set c | c in fixed :: c.name;
    PartsOfDistinct(fixed, kept);
    EdgeIsDeclared(all);
    EdgeIsDeclared(fixed);
    EdgeIsDeclared(kept);
    assert forall n :: n in lows <==> Named(fixed, n);
    PartsDeclare(fixed, kept, lows);
    hide Deps, Edge, Acyclic, DistinctNames, Declares, Named;
    LayeredCycles(Deps(all), Deps(fixed), Deps(kept), lows);
  }

  /** What a merge over an accepted static configuration still has to satisfy. */
  ghost predicate Mergeable(fixed: GatewayConfig, dynamic: seq<ContainerConfig>, lib: Library, clock: int) {
    var merged, kept := Merged(fixed, dynamic), Kept(fixed.containers, dynamic);
    && (forall c :: c in fixed.containers && c.host == "" ==> DependencyTarget(merged.containers, c.name))
    && (forall d :: d in kept ==> ContainerOk(merged, lib, clock, d))
    && Acyclic(Deps(kept))
  }

  /** On top of an accepted static configuration a merge is accepted exactly when every static container
      without a host is a dependency of something, the discovered containers that were kept pass on
      their own, and they form no cycle. */
  lemma MergeValidIff(fixed: GatewayConfig, dynamic: seq<ContainerConfig>, lib: Library, clock: int)
    requires Valid(fixed, lib, clock)
    ensures Valid(Merged(fixed, dynamic), lib, clock) <==> Mergeable(fixed, dynamic, lib, clock)
  {
    var merged, kept := Merged(fixed, dynamic), Kept(fixed.containers, dynamic);
    MergeKeepsUniqueness(fixed.containers, dynamic);
    forall c | c in fixed.containers
      ensures ContainerOk(merged, lib, clock, c) <==> c.host != "" || DependencyTarget(merged.containers, c.name)
    {
      StaticStaysOk(fixed, dynamic, lib, clock, c);
    }
    forall c, d | c in fixed.containers && d in c.dependsOn ensures Named(fixed.containers, d) {
      assert ContainerOk(fixed, lib, clock, c);
    }
    MergeAcyclicIff(fixed.containers, kept);
    hide ContainerOk, Acyclic, Deps, DependencyTarget, Kept;
  }

  /** With nothing discovered, only the containers without a host can be in the way. */
  lemma StaticMergeValidIff(fixed: GatewayConfig, lib: Library, clock: int)
    requires Valid(fixed, lib, clock)
    ensures Valid(Merged(fixed, []), lib, clock) <==>
            forall c :: c in fixed.containers && c.host == "" ==> DependencyTarget(fixed.containers, c.name)
  {
    MergeValidIff(fixed, [], lib, clock);
    assert Merged(fixed, []).containers == fixed.containers;
    NoEdgesNoCycle(Deps([]));
  }

  lemma StaticStaysOk(fixed: GatewayConfig, dynamic: seq<ContainerConfig>, lib: Library, clock: int, c: ContainerConfig)
    requires ContainerOk(fixed, lib, clock, c) && c in fixed.containers
    ensures ContainerOk(Merged(fixed, dynamic), lib, clock, c) <==>
            c.host != "" || DependencyTarget(Merged(fixed, dynamic).containers, c.name)
  {
    var merged := Merged(fixed, dynamic);
    assert ScheduleOk(merged, lib, clock, c) <==> ScheduleOk(fixed, lib, clock, c);
    forall d | Named(fixed.containers, d) ensures Named(merged.containers, d) {
      var x :| x in fixed.containers && x.name == d;
      assert x in merged.containers;
    }
  }

  /** One group whose only member has no host of its own. */
  function Grouped(port: string, g: string, h: string, n: string): GatewayConfig {
    GatewayConfig(GlobalConfig(port, "", AdminAuth("none", "", "", "")),
                  [ContainerConfig(n, "", "80", 0, [], "", "", "")], [GroupConfig(g, h, "round-robin", [n])])
  }

  /** Such a configuration is accepted, and no merge over it is, unless a discovered container depends
      on the member. */
  lemma GroupOnlyMemberBlocksDiscovery(port: string, g: string, h: string, n: string, dynamic: seq<ContainerConfig>,
                                       lib: Library, clock: int)
    requires port != "" && g != "" && h != "" && n != ""
    ensures Valid(Grouped(port, g, h, n), lib, clock)
    ensures Valid(Merged(Grouped(port, g, h, n), dynamic), lib, clock) ==>
            exists d :: d in dynamic && n in d.dependsOn
  {
    var fixed := Grouped(port, g, h, n);
    var c := fixed.containers[0];
    assert fixed.groups[0] in fixed.groups;
    assert GroupMember(fixed.groups, n);
    assert Named(fixed.containers, n);
    NoEdgesNoCycle(Deps(fixed.containers));
    assert Valid(fixed, lib, clock);
    var merged := Merged(fixed, dynamic);
    if Valid(merged, lib, clock) {
      assert c in merged.containers;
      assert ContainerOk(merged, lib, clock, c);
      var d :| d in merged.containers && n in d.dependsOn;
      KeptIsListed(fixed.containers, dynamic, d);
    }
  }
}
