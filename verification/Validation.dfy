/** gateway/config.go: what `Validate` accepts, and what an accepted configuration guarantees the
    searches and the scheduler. */
module Validation {
  import opened Wrappers
  import opened Config
  import opened DependencyGraph
  import opened TopoSort
  import opened CycleDetection
  import opened Cascade
  import opened Schedule
  import opened CronJobs

  datatype ConfigError =
    | EmptyPort
    | BadTimezone
    | BadAuth
    | MissingName(index: nat)
    | MissingHost(index: nat)
    | MissingTargetPort(index: nat)
    | DuplicateName(index: nat)
    | DuplicateHost(index: nat)
    | UnknownDependency(index: nat, dep: string)
    | SelfDependency(index: nat)
    | BadContainerTimezone(index: nat)
    | BadSchedule(index: nat, cause: ScheduleError)
    | BadGroup(index: nat)
    | DuplicateGroup(index: nat)
    | GroupHostConflict(index: nat)
    | UnknownMember(index: nat, member: string)
    | Cycle(report: CycleError)

  /** The empty name is the process's own zone. */
  function ResolveLocation(lib: Library, name: string): Option<Location> {
    if name == "" then Some(Local) else lib.locate(name)
  }

  predicate AuthOk(a: AdminAuth) {
    a.authMethod in {"", "none"}
    || (a.authMethod == "basic" && a.username != "" && a.password != "")
    || (a.authMethod == "bearer" && a.token != "")
  }

  ghost predicate Named(cs: seq<ContainerConfig>, n: string) { exists c :: c in cs && c.name == n }

  ghost predicate Hosted(cs: seq<ContainerConfig>, h: string) { exists c :: c in cs && c.host == h && h != "" }

  ghost predicate GroupMember(gs: seq<GroupConfig>, n: string) { exists g :: g in gs && n in g.containers }

  ghost predicate DependencyTarget(cs: seq<ContainerConfig>, n: string) { exists c :: c in cs && n in c.dependsOn }

  function EffectiveTimezone(cfg: GatewayConfig, c: ContainerConfig): string {
    if c.scheduleTimezone == "" then cfg.gateway.scheduleTimezone else c.scheduleTimezone
  }

  function ScheduleLocation(cfg: GatewayConfig, lib: Library, c: ContainerConfig): Location {
    var l := ResolveLocation(lib, EffectiveTimezone(cfg, c));
    if l.Some? then l.value else NilLocation
  }

  ghost predicate ScheduleOk(cfg: GatewayConfig, lib: Library, clock: int, c: ContainerConfig) {
    c.scheduleStart != "" || c.scheduleStop != "" ==>
      Compatible(c.scheduleStart, c.scheduleStop, ScheduleLocation(cfg, lib, c), lib.parse, clock)
  }

  /** The demands on one container that do not compare it with others of its kind. */
  ghost predicate ContainerOk(cfg: GatewayConfig, lib: Library, clock: int, c: ContainerConfig) {
    && c.name != "" && c.targetPort != ""
    && (c.host != "" || GroupMember(cfg.groups, c.name) || DependencyTarget(cfg.containers, c.name))
    && (forall d :: d in c.dependsOn ==> Named(cfg.containers, d) && d != c.name)
    && ResolveLocation(lib, c.scheduleTimezone).Some?
    && ScheduleOk(cfg, lib, clock, c)
  }

  ghost predicate GroupOk(cfg: GatewayConfig, g: GroupConfig) {
    && g.name != "" && g.host != "" && g.containers != []
    && !Hosted(cfg.containers, g.host)
    && forall n :: n in g.containers ==> Named(cfg.containers, n)
  }

  ghost predicate DistinctHosts(cs: seq<ContainerConfig>) {
    forall i, j :: 0 <= i < j < |cs| && cs[i].host != "" ==> cs[i].host != cs[j].host
  }

  ghost predicate Valid(cfg: GatewayConfig, lib: Library, clock: int) {
    && cfg.gateway.port != "" && ResolveLocation(lib, cfg.gateway.scheduleTimezone).Some?
    && AuthOk(cfg.gateway.adminAuth)
    && (forall c :: c in cfg.containers ==> ContainerOk(cfg, lib, clock, c))
    && DistinctNames(cfg.containers) && DistinctHosts(cfg.containers)
    && (forall g :: g in cfg.groups ==> GroupOk(cfg, g))
    && (forall i, j :: 0 <= i < j < |cfg.groups| ==>
          cfg.groups[i].name != cfg.groups[j].name && cfg.groups[i].host != cfg.groups[j].host)
    && Acyclic(Deps(cfg.containers))
  }

  /** What each error asserts about the configuration. */
  ghost predicate Complains(cfg: GatewayConfig, lib: Library, clock: int, e: ConfigError) {
    var cs, gs := cfg.containers, cfg.groups;
    match e
    case EmptyPort => cfg.gateway.port == ""
    case BadTimezone => ResolveLocation(lib, cfg.gateway.scheduleTimezone).None?
    case BadAuth => !AuthOk(cfg.gateway.adminAuth)
    case MissingName(i) => i < |cs| && cs[i].name == ""
    case MissingHost(i) =>
      i < |cs| && cs[i].host == "" && !GroupMember(gs, cs[i].name) && !DependencyTarget(cs, cs[i].name)
    case MissingTargetPort(i) => i < |cs| && cs[i].targetPort == ""
    case DuplicateName(i) => i < |cs| && Named(cs[..i], cs[i].name)
    case DuplicateHost(i) => i < |cs| && Hosted(cs[..i], cs[i].host)
    case UnknownDependency(i, d) => i < |cs| && d in cs[i].dependsOn && !Named(cs, d)
    case SelfDependency(i) => i < |cs| && cs[i].name in cs[i].dependsOn
    case BadContainerTimezone(i) => i < |cs| && ResolveLocation(lib, cs[i].scheduleTimezone).None?
    case BadSchedule(i, _) => i < |cs| && !ScheduleOk(cfg, lib, clock, cs[i])
    case BadGroup(i) => i < |gs| && (gs[i].name == "" || gs[i].host == "" || gs[i].containers == [])
    case DuplicateGroup(i) => i < |gs| && exists j :: 0 <= j < i && gs[j].name == gs[i].name
    case GroupHostConflict(i) =>
      i < |gs| && (Hosted(cs, gs[i].host) || exists j :: 0 <= j < i && gs[j].host == gs[i].host)
    case UnknownMember(i, n) => i < |gs| && n in gs[i].containers && !Named(cs, n)
    case Cycle(report) => ReportsCycle(Deps(cs), report)
  }

  predicate AboutGroups(e: ConfigError) {
    e.BadGroup? || e.DuplicateGroup? || e.GroupHostConflict? || e.UnknownMember?
  }

  predicate AboutOneContainer(e: ConfigError) {
    e.MissingName? || e.MissingHost? || e.MissingTargetPort? || e.UnknownDependency? || e.SelfDependency?
    || e.BadContainerTimezone? || e.BadSchedule?
  }

  lemma ContainerComplaint(cfg: GatewayConfig, lib: Library, clock: int, e: ConfigError)
    requires AboutOneContainer(e) && Complains(cfg, lib, clock, e)
    ensures e.index < |cfg.containers| && !ContainerOk(cfg, lib, clock, cfg.containers[e.index])
  {}

  /** An earlier group has the same name or host. */
  ghost predicate TakenBefore(gs: seq<GroupConfig>, i: nat)
    requires i < |gs|
  {
    exists j :: 0 <= j < i && (gs[j].name == gs[i].name || gs[j].host == gs[i].host)
  }

  lemma GroupComplaint(cfg: GatewayConfig, lib: Library, clock: int, e: ConfigError)
    requires AboutGroups(e) && Complains(cfg, lib, clock, e)
    ensures e.index < |cfg.groups|
    ensures !GroupOk(cfg, cfg.groups[e.index]) || TakenBefore(cfg.groups, e.index)
  {}

  lemma ComplaintMeansInvalid(cfg: GatewayConfig, lib: Library, clock: int, e: ConfigError)
    requires Complains(cfg, lib, clock, e)
    ensures !Valid(cfg, lib, clock)
  {
    var cs := cfg.containers;
    if AboutOneContainer(e) {
      ContainerComplaint(cfg, lib, clock, e);
      hide Complains, ContainerOk;
      assert cs[e.index] in cs;
    } else if AboutGroups(e) {
      GroupComplaint(cfg, lib, clock, e);
      hide Complains, GroupOk;
      assert cfg.groups[e.index] in cfg.groups;
    } else {
      hide ContainerOk, GroupOk;
      match e
      case DuplicateName(i) => var c :| c in cs[..i] && c.name == cs[i].name;
      case DuplicateHost(i) => var c :| c in cs[..i] && c.host == cs[i].host;
      case Cycle(report) => ReportMeansCyclic(Deps(cs), report);
      case _ =>
    }
  }

  /** What each rejection says about the lists, spelled out. */
  lemma ComplaintSpelledOut(cfg: GatewayConfig, lib: Library, clock: int, e: ConfigError)
    requires Complains(cfg, lib, clock, e)
    ensures
      var cs, gs, zone := cfg.containers, cfg.groups, cfg.gateway.scheduleTimezone;
      match e
      case EmptyPort => cfg.gateway.port == ""
      case BadTimezone => zone != "" && lib.locate(zone).None?
      case BadAuth =>
        var a := cfg.gateway.adminAuth;
        && a.authMethod != "" && a.authMethod != "none"
        && (a.authMethod == "basic" ==> a.username == "" || a.password == "")
        && (a.authMethod == "bearer" ==> a.token == "")
      case MissingName(i) => i < |cs| && cs[i].name == ""
      case MissingHost(i) => i < |cs| && cs[i].host == ""
      case MissingTargetPort(i) => i < |cs| && cs[i].targetPort == ""
      case DuplicateName(i) => i < |cs| && exists j :: 0 <= j < i && cs[j].name == cs[i].name
      case DuplicateHost(i) => i < |cs| && exists j :: 0 <= j < i && cs[j].host == cs[i].host != ""
      case UnknownDependency(i, d) => i < |cs| && d in cs[i].dependsOn && forall c :: c in cs ==> c.name != d
      case SelfDependency(i) => i < |cs| && cs[i].name in cs[i].dependsOn
      case BadContainerTimezone(i) =>
        i < |cs| && cs[i].scheduleTimezone != "" && lib.locate(cs[i].scheduleTimezone).None?
      case BadSchedule(i, _) => i < |cs| && (cs[i].scheduleStart != "" || cs[i].scheduleStop != "")
      case BadGroup(i) => i < |gs| && (gs[i].name == "" || gs[i].host == "" || |gs[i].containers| == 0)
      case DuplicateGroup(i) => i < |gs| && exists j :: 0 <= j < i && gs[j].name == gs[i].name
      case GroupHostConflict(i) =>
        i < |gs| && ((exists c :: c in cs && c.host == gs[i].host)
                     || exists j :: 0 <= j < i && gs[j].host == gs[i].host)
      case UnknownMember(i, n) => i < |gs| && n in gs[i].containers && forall c :: c in cs ==> c.name != n
      case Cycle(report) => !Acyclic(Deps(cs))
  {
    if e.Cycle? { ReportMeansCyclic(Deps(cfg.containers), e.report); }
    hide Acyclic, ReportsCycle, Deps, ScheduleOk;
  }

  // ---------------------------------------------------------------- the check itself

  method NameSet(cs: seq<ContainerConfig>) returns (names: set<string>)
    ensures forall n :: n in names <==> Named(cs, n)
  {
    names := set c | c in cs :: c.name;
  }

  method HostExempt(cfg: GatewayConfig) returns (exempt: set<string>)
    ensures forall n :: n in exempt <==> GroupMember(cfg.groups, n) || DependencyTarget(cfg.containers, n)
  {
    exempt := (set g, n | g in cfg.groups && n in g.containers :: n)
              + (set c, n | c in cfg.containers && n in c.dependsOn :: n);
  }

  /** One iteration of the container loop: everything demanded of container `i` given the earlier ones. */
  method CheckContainer(cfg: GatewayConfig, lib: Library, clock: int, i: nat, nameSet: set<string>, exempt: set<string>,
                        seenNames: set<string>, seenHosts: set<string>) returns (err: Option<ConfigError>)
    requires i < |cfg.containers|
    requires forall n :: n in nameSet <==> Named(cfg.containers, n)
    requires forall n :: n in exempt <==> GroupMember(cfg.groups, n) || DependencyTarget(cfg.containers, n)
    requires forall n :: n in seenNames <==> Named(cfg.containers[..i], n)
    requires forall h :: h in seenHosts <==> Hosted(cfg.containers[..i], h)
    ensures err.None? ==> ContainerOk(cfg, lib, clock, cfg.containers[i])
    ensures err.None? ==> cfg.containers[i].name !in seenNames && cfg.containers[i].host !in seenHosts
    ensures err.Some? ==> Complains(cfg, lib, clock, err.value)
  {
    var ctr := cfg.containers[i];
    if ctr.name == "" { return Some(MissingName(i)); }
    if ctr.host == "" && ctr.name !in exempt { return Some(MissingHost(i)); }
    if ctr.targetPort == "" { return Some(MissingTargetPort(i)); }
    if ctr.name in seenNames { return Some(DuplicateName(i)); }
    if ctr.host != "" && ctr.host in seenHosts { return Some(DuplicateHost(i)); }
    for j := 0 to |ctr.dependsOn|
      invariant forall k :: 0 <= k < j ==> Named(cfg.containers, ctr.dependsOn[k]) && ctr.dependsOn[k] != ctr.name
    {
      if ctr.dependsOn[j] !in nameSet { return Some(UnknownDependency(i, ctr.dependsOn[j])); }
      if ctr.dependsOn[j] == ctr.name { return Some(SelfDependency(i)); }
    }
    if ctr.scheduleTimezone != "" && ResolveLocation(lib, ctr.scheduleTimezone).None? {
      return Some(BadContainerTimezone(i));
    }
    if ctr.scheduleStart != "" || ctr.scheduleStop != "" {
      var e := ValidateScheduleCompatibility(ctr.scheduleStart, ctr.scheduleStop, ScheduleLocation(cfg, lib, ctr),
                                             lib.parse, clock);
      if e.Some? { return Some(BadSchedule(i, e.value)); }
    }
    return None;
  }

  method CheckContainers(cfg: GatewayConfig, lib: Library, clock: int, nameSet: set<string>)
    returns (err: Option<ConfigError>, seenHosts: set<string>)
    requires forall n :: n in nameSet <==> Named(cfg.containers, n)
    ensures err.None? ==> forall c :: c in cfg.containers ==> ContainerOk(cfg, lib, clock, c)
    ensures err.None? ==> DistinctNames(cfg.containers) && DistinctHosts(cfg.containers)
    ensures err.None? ==> forall h :: h in seenHosts <==> Hosted(cfg.containers, h)
    ensures err.Some? ==> Complains(cfg, lib, clock, err.value)
  {
    var cs := cfg.containers;
    var exempt := HostExempt(cfg);
    var seenNames: set<string> := {};
    seenHosts := {};
    for i := 0 to |cs|
      invariant forall k :: 0 <= k < i ==> ContainerOk(cfg, lib, clock, cs[k])
      invariant DistinctNames(cs[..i]) && DistinctHosts(cs[..i])
      invariant forall n :: n in seenNames <==> Named(cs[..i], n)
      invariant forall h :: h in seenHosts <==> Hosted(cs[..i], h)
    {
      err := CheckContainer(cfg, lib, clock, i, nameSet, exempt, seenNames, seenHosts);
      if err.Some? { return; }
      OneMoreContainer(cs, i);
      seenNames := seenNames + {cs[i].name};
      if cs[i].host != "" { seenHosts := seenHosts + {cs[i].host}; }
    }
    assert cs[..|cs|] == cs;
    err := None;
  }

  lemma OneMoreContainer(cs: seq<ContainerConfig>, i: nat)
    requires i < |cs| && DistinctNames(cs[..i]) && DistinctHosts(cs[..i])
    requires !Named(cs[..i], cs[i].name) && !Hosted(cs[..i], cs[i].host)
    ensures DistinctNames(cs[..i + 1]) && DistinctHosts(cs[..i + 1])
    ensures forall n :: Named(cs[..i + 1], n) <==> Named(cs[..i], n) || n == cs[i].name
    ensures forall h :: Hosted(cs[..i + 1], h) <==> Hosted(cs[..i], h) || (h == cs[i].host && h != "")
  {}

  method CheckGroups(cfg: GatewayConfig, lib: Library, clock: int, nameSet: set<string>, containerHosts: set<string>)
    returns (err: Option<ConfigError>)
    requires forall n :: n in nameSet <==> Named(cfg.containers, n)
    requires forall h :: h in containerHosts <==> Hosted(cfg.containers, h)
    ensures err.None? ==> forall g :: g in cfg.groups ==> GroupOk(cfg, g)
    ensures err.None? ==> forall i, j :: 0 <= i < j < |cfg.groups| ==>
              cfg.groups[i].name != cfg.groups[j].name && cfg.groups[i].host != cfg.groups[j].host
    ensures err.Some? ==> Complains(cfg, lib, clock, err.value)
  {
    var gs := cfg.groups;
    var seenGroupNames: set<string> := {};
    var seenHosts := containerHosts;
    for i := 0 to |gs|
      invariant GroupsSoFar(cfg, i) && GroupsSeen(cfg, i, seenGroupNames, seenHosts)
    {
      err := CheckGroup(cfg, lib, clock, i, nameSet, seenGroupNames, seenHosts);
      if err.Some? { return; }
      OneMoreGroup(cfg, i, seenGroupNames, seenHosts);
      seenGroupNames := seenGroupNames + {gs[i].name};
      seenHosts := seenHosts + {gs[i].host};
    }
    return None;
  }

  /** The first `i` groups are fine and share no name and no host. */
  ghost predicate GroupsSoFar(cfg: GatewayConfig, i: nat)
    requires i <= |cfg.groups|
  {
    && (forall k :: 0 <= k < i ==> GroupOk(cfg, cfg.groups[k]))
    && (forall k, l :: 0 <= k < l < i ==>
          cfg.groups[k].name != cfg.groups[l].name && cfg.groups[k].host != cfg.groups[l].host)
  }

  ghost predicate GroupsSeen(cfg: GatewayConfig, i: nat, names: set<string>, hosts: set<string>)
    requires i <= |cfg.groups|
  {
    && (forall n :: n in names <==> exists k :: 0 <= k < i && cfg.groups[k].name == n)
    && (forall h :: h in hosts <==> Hosted(cfg.containers, h) || exists k :: 0 <= k < i && cfg.groups[k].host == h)
  }

  lemma OneMoreGroup(cfg: GatewayConfig, i: nat, names: set<string>, hosts: set<string>)
    requires i < |cfg.groups| && GroupsSoFar(cfg, i) && GroupsSeen(cfg, i, names, hosts)
    requires GroupOk(cfg, cfg.groups[i]) && cfg.groups[i].name !in names && cfg.groups[i].host !in hosts
    ensures GroupsSoFar(cfg, i + 1)
    ensures GroupsSeen(cfg, i + 1, names + {cfg.groups[i].name}, hosts + {cfg.groups[i].host})
  {
    hide GroupOk, Hosted;
  }

  method CheckGroup(cfg: GatewayConfig, lib: Library, clock: int, i: nat, nameSet: set<string>,
                    seenGroupNames: set<string>, seenHosts: set<string>) returns (err: Option<ConfigError>)
    requires i < |cfg.groups|
    requires forall n :: n in nameSet <==> Named(cfg.containers, n)
    requires GroupsSeen(cfg, i, seenGroupNames, seenHosts)
    ensures err.None? ==> GroupOk(cfg, cfg.groups[i])
    ensures err.None? ==> cfg.groups[i].name !in seenGroupNames && cfg.groups[i].host !in seenHosts
    ensures err.Some? ==> Complains(cfg, lib, clock, err.value)
  {
    var g := cfg.groups[i];
    if g.name == "" || g.host == "" || |g.containers| == 0 { return Some(BadGroup(i)); }
    if g.name in seenGroupNames { return Some(DuplicateGroup(i)); }
    if g.host in seenHosts { return Some(GroupHostConflict(i)); }
    for j := 0 to |g.containers|
      invariant forall k :: 0 <= k < j ==> Named(cfg.containers, g.containers[k])
    {
      if g.containers[j] !in nameSet { return Some(UnknownMember(i, g.containers[j])); }
    }
    return None;
  }

  /** Accepts exactly the valid configurations; a rejection states a true complaint. */
  method Validate(cfg: GatewayConfig, lib: Library, clock: int) returns (err: Option<ConfigError>)
    ensures err.None? <==> Valid(cfg, lib, clock)
    ensures err.Some? ==> Complains(cfg, lib, clock, err.value)
    ensures err.Some? && err.value.MissingHost? ==>
      var i := err.value.index;
      && i < |cfg.containers| && cfg.containers[i].host == ""
      && (forall c :: c in cfg.containers ==> cfg.containers[i].name !in c.dependsOn)
      && (forall g :: g in cfg.groups ==> cfg.containers[i].name !in g.containers)
    ensures err.None? ==> forall c :: c in cfg.containers && c.host == "" ==>
      || (exists d :: d in cfg.containers && c.name in d.dependsOn)
      || (exists g :: g in cfg.groups && c.name in g.containers)
  {
    err := CheckAll(cfg, lib, clock);
    if err.Some? {
      ComplaintMeansInvalid(cfg, lib, clock, err.value);
    } else {
      AcceptedContainers(cfg, lib, clock);
    }
  }

  method CheckAll(cfg: GatewayConfig, lib: Library, clock: int) returns (err: Option<ConfigError>)
    ensures err.None? ==> Valid(cfg, lib, clock)
    ensures err.Some? ==> Complains(cfg, lib, clock, err.value)
  {
    if cfg.gateway.port == "" { return Some(EmptyPort); }
    if ResolveLocation(lib, cfg.gateway.scheduleTimezone).None? { return Some(BadTimezone); }
    if !AuthOk(cfg.gateway.adminAuth) { return Some(BadAuth); }
    var nameSet := NameSet(cfg.containers);
    var hosts;
    err, hosts := CheckContainers(cfg, lib, clock, nameSet);
    if err.Some? { return; }
    err := CheckGroups(cfg, lib, clock, nameSet, hosts);
    if err.Some? { return; }
    var cycle := DetectDependencyCycles(cfg.containers);
    if cycle.Some? { return Some(Cycle(cycle.value)); }
    return None;
  }

  // ---------------------------------------------------------------- what acceptance buys

  lemma {:induction false} PathStaysConfigured(cs: seq<ContainerConfig>, p: seq<string>, i: nat)
    requires forall c, d :: c in cs && d in c.dependsOn ==> Named(cs, d)
    requires IsPath(Deps(cs), p) && p[0] in Deps(cs) && i < |p|
    ensures p[i] in Deps(cs)
  {
    if i > 0 {
      PathStaysConfigured(cs, p, i - 1);
      assert Edge(Deps(cs), p[i - 1], p[i - 1 + 1]);
      assert Named(cs, p[i]);
    }
  }

  /** The container demands of an accepted configuration, spelled out. */
  ghost predicate ContainersInOrder(cfg: GatewayConfig, lib: Library, clock: int) {
    var cs, gs, globalZone := cfg.containers, cfg.groups, cfg.gateway.scheduleTimezone;
    && (forall i, j :: 0 <= i < j < |cs| ==> cs[i].name != cs[j].name)
    && (forall i, j :: 0 <= i < j < |cs| && cs[i].host == cs[j].host ==> cs[i].host == "")
    && (forall c :: c in cs ==> c.name != "" && c.targetPort != "")
    && (forall c :: c in cs && c.host == "" ==>
          || (exists d :: d in cs && c.name in d.dependsOn)
          || (exists g :: g in gs && c.name in g.containers))
    && (forall c, d :: c in cs && d in c.dependsOn ==> d != c.name && exists e :: e in cs && e.name == d)
    && (forall c :: c in cs && c.scheduleTimezone != "" ==> lib.locate(c.scheduleTimezone).Some?)
    && (forall c :: c in cs && !(c.scheduleStart == "" && c.scheduleStop == "") ==>
          var zone := if c.scheduleTimezone == "" then globalZone else c.scheduleTimezone;
          var loc := if zone == "" then Local
                     else if lib.locate(zone).Some? then lib.locate(zone).value
                     else NilLocation;
          Compatible(c.scheduleStart, c.scheduleStop, loc, lib.parse, clock))
  }

  ghost predicate GroupsInOrder(cfg: GatewayConfig) {
    var cs, gs := cfg.containers, cfg.groups;
    && (forall g :: g in gs ==> g.name != "" && g.host != "" && |g.containers| > 0)
    && (forall g, n :: g in gs && n in g.containers ==> exists c :: c in cs && c.name == n)
    && (forall g, c :: g in gs && c in cs ==> g.host != c.host)
    && (forall i, j :: 0 <= i < j < |gs| ==> gs[i].name != gs[j].name && gs[i].host != gs[j].host)
  }

  /** The settings of the gateway itself: a port, a known zone, and complete credentials for a known
      authentication method. */
  ghost predicate GatewayInOrder(cfg: GatewayConfig, lib: Library) {
    var g, auth := cfg.gateway, cfg.gateway.adminAuth;
    && g.port != ""
    && (g.scheduleTimezone == "" || lib.locate(g.scheduleTimezone).Some?)
    && auth.authMethod in {"", "none", "basic", "bearer"}
    && (auth.authMethod == "basic" ==> auth.username != "" && auth.password != "")
    && (auth.authMethod == "bearer" ==> auth.token != "")
  }

  /** Exactly the configurations in order, without a dependency cycle, are accepted. */
  lemma AcceptedIffInOrder(cfg: GatewayConfig, lib: Library, clock: int)
    ensures Valid(cfg, lib, clock) <==>
            GatewayInOrder(cfg, lib) && ContainersInOrder(cfg, lib, clock) && GroupsInOrder(cfg)
            && Acyclic(Deps(cfg.containers))
  {
    hide Compatible, Acyclic, Deps;
  }

  lemma AcceptedContainers(cfg: GatewayConfig, lib: Library, clock: int)
    requires Valid(cfg, lib, clock)
    ensures ContainersInOrder(cfg, lib, clock)
  {
    AcceptedIffInOrder(cfg, lib, clock);
  }

  /** Every configured name of an accepted configuration can be sorted. */
  lemma ValidSorts(cfg: GatewayConfig, lib: Library, clock: int, target: string)
    requires Valid(cfg, lib, clock)
    ensures Sortable(Deps(cfg.containers), target) <==> Named(cfg.containers, target)
  {
    var cs := cfg.containers;
    var g := Deps(cs);
    forall c, d | c in cs && d in c.dependsOn ensures Named(cs, d) { assert ContainerOk(cfg, lib, clock, c); }
    assert target in g <==> Named(cs, target);
    ReachesSelf(g, target);
    if target in g {
      forall n | Reaches(g, target, n) ensures n in g && !OnCycle(g, n) {
        var p :| PathFromTo(g, target, p, n);
        PathStaysConfigured(cs, p, |p| - 1);
      }
    }
  }

  /** So the cascade skips no configured entry point, and activity stamps the full closures. */
  lemma ValidClosures(cfg: GatewayConfig, lib: Library, clock: int, roots: seq<string>, n: string)
    requires Valid(cfg, lib, clock)
    requires forall r :: r in roots ==> Named(cfg.containers, r)
    ensures InSomeClosure(Deps(cfg.containers), roots, n) <==>
            exists r :: r in roots && Reaches(Deps(cfg.containers), r, n)
    ensures n in StopSet(cfg.containers, roots) <==> exists r :: r in roots && Reaches(Deps(cfg.containers), r, n)
  {
    forall r | r in roots ensures Sortable(Deps(cfg.containers), r) { ValidSorts(cfg, lib, clock, r); }
  }

  /** The zone Sync registers with is the zone Validate checked with, so every job of an accepted
      configuration registers and none is ever leaked. */
  lemma ValidIsTidy(cfg: GatewayConfig, lib: Library, clock: int, loc: Location)
    requires Valid(cfg, lib, clock) && ResolveLocation(lib, cfg.gateway.scheduleTimezone) == Some(loc)
    ensures Tidy(lib, cfg.containers, loc)
  {
    forall c | c in cfg.containers ensures Complete(lib, c, loc) {
      assert ContainerOk(cfg, lib, clock, c);
      assert Effective(lib, c, loc) == ScheduleLocation(cfg, lib, c);
    }
    ParseableIsTidy(lib, cfg.containers, loc);
  }

  lemma {:induction false} AtMostOneMatch(cfg: GatewayConfig, lib: Library, clock: int)
    requires Valid(cfg, lib, clock)
    ensures forall h :: FirstWhere(cfg.containers, ByHost(h)) == LastWhere(cfg.containers, ByHost(h))
    ensures forall n :: FirstWhere(cfg.containers, ByName(n)) == LastWhere(cfg.containers, ByName(n))
    ensures forall h :: FirstWhere(cfg.groups, GroupByHost(h)) == LastWhere(cfg.groups, GroupByHost(h))
  {}
}
