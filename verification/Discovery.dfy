/** gateway/discovery.go and the configuration side of gateway/server.go: merging discovered
    containers into the static configuration, pushing changes, and routing by the current one. */
module Discovery {
  import opened Wrappers
  import opened Config
  import opened Cascade
  import opened Schedule
  import opened CronJobs
  import opened Validation

  // ---------------------------------------------------------------- merging

  ghost predicate Clashes(cs: seq<ContainerConfig>, d: ContainerConfig) {
    exists c :: c in cs && (c.host == d.host || c.name == d.name)
  }

  /** The discovered containers that clash with nothing before them. */
  ghost function Kept(fixed: seq<ContainerConfig>, dynamic: seq<ContainerConfig>): seq<ContainerConfig> {
    if dynamic == [] then []
    else
      var kept, d := Kept(fixed, dynamic[..|dynamic| - 1]), dynamic[|dynamic| - 1];
      if Clashes(fixed + kept, d) then kept else kept + [d]
  }

  /** The groups of the static configuration do not survive. */
  ghost function Merged(fixed: GatewayConfig, dynamic: seq<ContainerConfig>): GatewayConfig {
    GatewayConfig(fixed.gateway, fixed.containers + Kept(fixed.containers, dynamic), [])
  }

  ghost predicate SeenBy(cs: seq<ContainerConfig>, hosts: set<string>, names: set<string>) {
    && (forall h :: h in hosts <==> exists c :: c in cs && c.host == h)
    && (forall n :: n in names <==> exists c :: c in cs && c.name == n)
  }

  lemma SeenMore(cs: seq<ContainerConfig>, hosts: set<string>, names: set<string>, d: ContainerConfig)
    requires SeenBy(cs, hosts, names)
    ensures SeenBy(cs + [d], hosts + {d.host}, names + {d.name})
    ensures Clashes(cs, d) <==> d.host in hosts || d.name in names
  {}

  method MergeConfigs(fixed: GatewayConfig, dynamic: seq<ContainerConfig>) returns (merged: GatewayConfig)
    ensures merged == Merged(fixed, dynamic)
    ensures merged.gateway == fixed.gateway && merged.groups == []
    ensures fixed.containers <= merged.containers
    ensures forall c :: c in merged.containers[|fixed.containers|..] ==> c in dynamic
    ensures forall d :: d in dynamic && d !in merged.containers ==>
              exists c :: c in merged.containers && (c.host == d.host || c.name == d.name)
  {
    var seenHosts: set<string>, seenNames: set<string> := {}, {};
    var containers: seq<ContainerConfig> := [];
    assert SeenBy([], {}, {});
    hide SeenBy, Clashes;
    for i := 0 to |fixed.containers|
      invariant containers == fixed.containers[..i] && SeenBy(containers, seenHosts, seenNames)
    {
      var sc := fixed.containers[i];
      SeenMore(containers, seenHosts, seenNames, sc);
      containers := containers + [sc];
      seenHosts, seenNames := seenHosts + {sc.host}, seenNames + {sc.name};
    }
    assert fixed.containers[..|fixed.containers|] == fixed.containers;
    for i := 0 to |dynamic|
      invariant containers == fixed.containers + Kept(fixed.containers, dynamic[..i])
      invariant SeenBy(containers, seenHosts, seenNames)
    {
      var dc := dynamic[i];
      assert dynamic[..i + 1][..i] == dynamic[..i];
      SeenMore(containers, seenHosts, seenNames, dc);
      if dc.host in seenHosts { continue; }
      if dc.name in seenNames { continue; }
      containers := containers + [dc];
      seenHosts, seenNames := seenHosts + {dc.host}, seenNames + {dc.name};
    }
    assert dynamic[..|dynamic|] == dynamic;
    MergeInPlainTerms(fixed.containers, dynamic);
    merged := GatewayConfig(fixed.gateway, containers, []);
  }

  ghost predicate Subsequence(a: seq<ContainerConfig>, b: seq<ContainerConfig>) {
    if b == [] then a == []
    else
      || Subsequence(a, b[..|b| - 1])
      || (a != [] && a[|a| - 1] == b[|b| - 1] && Subsequence(a[..|a| - 1], b[..|b| - 1]))
  }

  lemma {:induction false} KeptIsSubsequence(fixed: seq<ContainerConfig>, dynamic: seq<ContainerConfig>)
    ensures Subsequence(Kept(fixed, dynamic), dynamic)
  {
    if dynamic != [] {
      KeptIsSubsequence(fixed, dynamic[..|dynamic| - 1]);
      var k := Kept(fixed, dynamic);
      assert k == Kept(fixed, dynamic[..|dynamic| - 1]) || k[..|k| - 1] == Kept(fixed, dynamic[..|dynamic| - 1]);
    }
  }

  lemma {:induction false} KeptGrows(fixed: seq<ContainerConfig>, dynamic: seq<ContainerConfig>, i: nat)
    requires i <= |dynamic|
    ensures Kept(fixed, dynamic[..i]) <= Kept(fixed, dynamic)
  {
    if i < |dynamic| {
      var less := dynamic[..|dynamic| - 1];
      KeptGrows(fixed, less, i);
      assert less[..i] == dynamic[..i];
    } else {
      assert dynamic[..i] == dynamic;
    }
  }

  /** A discovered container is part of the merge, or clashes with a container kept before it. */
  lemma {:induction false} DroppedClashesEarlier(fixed: seq<ContainerConfig>, dynamic: seq<ContainerConfig>, i: nat)
    requires i < |dynamic|
    ensures dynamic[i] in Kept(fixed, dynamic)
            || exists c :: c in fixed + Kept(fixed, dynamic[..i])
                           && (c.host == dynamic[i].host || c.name == dynamic[i].name)
    ensures Kept(fixed, dynamic[..i]) <= Kept(fixed, dynamic)
  {
    KeptGrows(fixed, dynamic, i);
    KeptGrows(fixed, dynamic, i + 1);
    assert dynamic[..i + 1][..i] == dynamic[..i];
    var k := Kept(fixed, dynamic[..i + 1]);
    if !Clashes(fixed + Kept(fixed, dynamic[..i]), dynamic[i]) {
      assert k[|k| - 1] == dynamic[i];
      assert Kept(fixed, dynamic)[|k| - 1] == dynamic[i];
    }
  }

  lemma {:induction false} KeptIsListed(fixed: seq<ContainerConfig>, dynamic: seq<ContainerConfig>, d: ContainerConfig)
    requires d in Kept(fixed, dynamic)
    ensures d in dynamic
  {
    var less := dynamic[..|dynamic| - 1];
    if d in Kept(fixed, less) { KeptIsListed(fixed, less, d); }
  }

  lemma MergeInPlainTerms(fixed: seq<ContainerConfig>, dynamic: seq<ContainerConfig>)
    ensures forall c :: c in Kept(fixed, dynamic) ==> c in dynamic
    ensures forall d :: d in dynamic && d !in fixed + Kept(fixed, dynamic) ==>
              exists c :: c in fixed + Kept(fixed, dynamic) && (c.host == d.host || c.name == d.name)
  {
    forall c | c in Kept(fixed, dynamic) ensures c in dynamic { KeptIsListed(fixed, dynamic, c); }
    forall d | d in dynamic && d !in fixed + Kept(fixed, dynamic)
      ensures exists c :: c in fixed + Kept(fixed, dynamic) && (c.host == d.host || c.name == d.name)
    {
      var i :| 0 <= i < |dynamic| && dynamic[i] == d;
      DroppedClashesEarlier(fixed, dynamic, i);
    }
  }

  lemma UnclashedExtends(cs: seq<ContainerConfig>, d: ContainerConfig)
    requires DistinctNames(cs) && DistinctHosts(cs) && !Clashes(cs, d)
    ensures DistinctNames(cs + [d]) && DistinctHosts(cs + [d])
  {}

  /** Merging keeps names and hosts unique. */
  lemma {:induction false} MergeKeepsUniqueness(fixed: seq<ContainerConfig>, dynamic: seq<ContainerConfig>)
    requires DistinctNames(fixed) && DistinctHosts(fixed)
    ensures DistinctNames(fixed + Kept(fixed, dynamic)) && DistinctHosts(fixed + Kept(fixed, dynamic))
  {
    if dynamic == [] {
      assert fixed + [] == fixed;
    } else {
      var less, d := dynamic[..|dynamic| - 1], dynamic[|dynamic| - 1];
      MergeKeepsUniqueness(fixed, less);
      if !Clashes(fixed + Kept(fixed, less), d) {
        UnclashedExtends(fixed + Kept(fixed, less), d);
        assert fixed + (Kept(fixed, less) + [d]) == (fixed + Kept(fixed, less)) + [d];
      }
    }
  }

  /** Merging what was kept once more keeps all of it. */
  lemma {:induction false} MergeIsIdempotent(fixed: seq<ContainerConfig>, dynamic: seq<ContainerConfig>)
    ensures Kept(fixed, Kept(fixed, dynamic)) == Kept(fixed, dynamic)
  {
    if dynamic != [] {
      var less, d := dynamic[..|dynamic| - 1], dynamic[|dynamic| - 1];
      MergeIsIdempotent(fixed, less);
      var k := Kept(fixed, less);
      if !Clashes(fixed + k, d) { assert (k + [d])[..|k|] == k; }
    }
  }

  // ---------------------------------------------------------------- what a merge loses

  /** Group routing survives a merge exactly when no static group has a host. */
  lemma GroupRoutesSurviveIff(fixed: GatewayConfig, dynamic: seq<ContainerConfig>)
    ensures (forall h :: FirstWhere(Merged(fixed, dynamic).groups, GroupByHost(h)) ==
                         FirstWhere(fixed.groups, GroupByHost(h)))
            <==> forall g :: g in fixed.groups ==> g.host == ""
  {
    if exists g :: g in fixed.groups && g.host != "" {
      var g :| g in fixed.groups && g.host != "";
      assert GroupByHost(g.host)(g);
      assert FirstWhere(fixed.groups, GroupByHost(g.host)).Some?;
      assert FirstWhere(Merged(fixed, dynamic).groups, GroupByHost(g.host)).None?;
    }
  }

  lemma {:induction false} AllJobsJoin(lib: Library, a: seq<ContainerConfig>, b: seq<ContainerConfig>, loc: Location)
    ensures AllJobs(lib, a + b, loc) == AllJobs(lib, a, loc) + AllJobs(lib, b, loc)
  {
    hide JobsOf, Scheduled;
    if b == [] {
      assert a + b == a;
    } else {
      AllJobsJoin(lib, a, b[..|b| - 1], loc);
      assert (a + b)[..|a + b| - 1] == a + b[..|b| - 1];
    }
  }

  /** At startup the merge is pushed first and the static list is synchronised after it, so the cron
      ends up with the jobs of the static list. They are the jobs of the pushed configuration exactly
      when the containers discovered at startup have no jobs. */
  lemma StartupJobsMatchIff(lib: Library, fixed: GatewayConfig, dynamic: seq<ContainerConfig>, loc: Location)
    requires Tidy(lib, fixed.containers, loc) && Tidy(lib, Merged(fixed, dynamic).containers, loc)
    ensures
      var pushed := Request(Merged(fixed, dynamic).containers, loc);
      var after := History(lib, EMPTY, [pushed] + [Request(fixed.containers, loc)]);
      && after.live == AddJobs(map[], History(lib, EMPTY, [pushed]).lastId, AllJobs(lib, fixed.containers, loc))
      && (AllJobs(lib, fixed.containers, loc) == AllJobs(lib, pushed.containers, loc) <==>
          AllJobs(lib, Kept(fixed.containers, dynamic), loc) == [])
  {
    var pushed, last := Request(Merged(fixed, dynamic).containers, loc), Request(fixed.containers, loc);
    LiveJobsAreThoseOfTheLastSync(lib, [pushed], last);
    AllJobsJoin(lib, fixed.containers, Kept(fixed.containers, dynamic), loc);
  }

  // ---------------------------------------------------------------- the server's indexes

  function LastColon(host: string): (r: Option<nat>)
    ensures r.Some? ==> r.value < |host| && host[r.value] == ':' && ':' !in host[r.value + 1..]
    ensures r.None? ==> ':' !in host
  {
    if host == "" then None
    else if host[|host| - 1] == ':' then Some(|host| - 1)
    else LastColon(host[..|host| - 1])
  }

  /** A lookup by the host as given, then without its port. */
  function ByHostHeader<T>(find: string -> Option<T>, host: string): Option<T> {
    if find(host).Some? then find(host)
    else
      var colon := LastColon(host);
      if colon.Some? then find(host[..colon.value]) else None
  }

  /** Resolution as linear scans of a configuration. */
  function ScanConfig(cfg: GatewayConfig, host: string, param: string): Option<ContainerConfig> {
    var r := ByHostHeader(h => FirstWhere(cfg.containers, ByHost(h)), host);
    if r.Some? then r
    else if param != "" then FirstWhere(cfg.containers, ByName(param))
    else None
  }

  function ScanGroup(cfg: GatewayConfig, host: string): Option<GroupConfig> {
    ByHostHeader(h => FirstWhere(cfg.groups, GroupByHost(h)), host)
  }

  /** Resolution by the indexes, which hold the last entry of a host. */
  function IndexConfig(cfg: GatewayConfig, host: string, param: string): Option<ContainerConfig> {
    var r := ByHostHeader(h => LastWhere(cfg.containers, ByHost(h)), host);
    if r.Some? then r
    else if param != "" then FirstWhere(cfg.containers, ByName(param))
    else None
  }

  function IndexGroup(cfg: GatewayConfig, host: string): Option<GroupConfig> {
    ByHostHeader(h => LastWhere(cfg.groups, GroupByHost(h)), host)
  }

  lemma {:induction false} PortIsCutOff(host: string, port: string)
    requires ':' !in port
    ensures LastColon(host + ":" + port) == Some(|host|)
  {
    var h := host + ":" + port;
    if port == "" {
      assert h[|h| - 1] == ':';
    } else {
      assert h[|h| - 1] == port[|port| - 1];
      assert h[..|h| - 1] == host + ":" + port[..|port| - 1];
      PortIsCutOff(host, port[..|port| - 1]);
    }
  }

  lemma OnlyHolderIsLast(cs: seq<ContainerConfig>, c: ContainerConfig)
    requires c in cs && c.host != "" && forall d :: d in cs && d.host == c.host ==> d == c
    ensures LastWhere(cs, ByHost(c.host)) == Some(c)
  {
    assert ByHost(c.host)(c);
  }

  /** A request for the host of a container finds it, with or without a port. */
  lemma RequestFindsItsHost(cfg: GatewayConfig, c: ContainerConfig, port: string, param: string)
    requires c in cfg.containers && c.host != "" && forall d :: d in cfg.containers && d.host == c.host ==> d == c
    requires ':' !in port && forall d :: d in cfg.containers ==> d.host != c.host + ":" + port
    ensures IndexConfig(cfg, c.host, param) == Some(c)
    ensures IndexConfig(cfg, c.host + ":" + port, param) == Some(c)
  {
    var host := c.host + ":" + port;
    OnlyHolderIsLast(cfg.containers, c);
    PortIsCutOff(c.host, port);
    assert host[..|c.host|] == c.host;
    assert LastWhere(cfg.containers, ByHost(host)).None?;
  }

  /** What a request finds by its host has that host, up to a port; else it is the one asked for by name. */
  lemma FoundAsRequested(cfg: GatewayConfig, host: string, param: string)
    ensures
      var r := IndexConfig(cfg, host, param);
      && (r.Some? ==> r.value in cfg.containers
                      && ((r.value.host != "" && (r.value.host == host || r.value.host + ":" <= host))
                          || (param != "" && r.value.name == param)))
      && (r.None? && param != "" ==> forall c :: c in cfg.containers ==> c.name != param)
      && (r.None? ==> forall c :: c in cfg.containers && c.host != "" ==> c.host != host)
  {
    var colon := LastColon(host);
    if colon.Some? { assert host[..colon.value] + ":" == host[..colon.value + 1]; }
    forall c | c in cfg.containers && c.host != "" && c.host == host
      ensures LastWhere(cfg.containers, ByHost(host)).Some?
    {
      assert ByHost(host)(c);
    }
    forall c | c in cfg.containers && c.name == param ensures FirstWhere(cfg.containers, ByName(param)).Some? {
      assert ByName(param)(c);
    }
  }

  /** The same for groups. */
  lemma RequestFindsItsGroup(cfg: GatewayConfig, g: GroupConfig, port: string)
    requires g in cfg.groups && g.host != "" && forall h :: h in cfg.groups && h.host == g.host ==> h == g
    requires ':' !in port && forall h :: h in cfg.groups ==> h.host != g.host + ":" + port
    ensures IndexGroup(cfg, g.host) == Some(g) && IndexGroup(cfg, g.host + ":" + port) == Some(g)
  {
    var host := g.host + ":" + port;
    assert GroupByHost(g.host)(g);
    PortIsCutOff(g.host, port);
    assert host[..|g.host|] == g.host;
    assert LastWhere(cfg.groups, GroupByHost(host)).None?;
  }

  class Server {
    var cfg: GatewayConfig
    var hostIndex: map<string, ContainerConfig>
    var groupIndex: map<string, GroupConfig>
    var containerMap: map<string, ContainerConfig>
    const scheduler: ScheduleManager

    constructor (scheduler: ScheduleManager, cfg: GatewayConfig)
      ensures Indexed() && this.cfg == cfg && this.scheduler == scheduler
    {
      this.cfg, this.scheduler := cfg, scheduler;
      var hosts := BuildHostIndex(cfg.containers);
      var groups := BuildGroupHostIndex(cfg.groups);
      var names := BuildContainerMap(cfg.containers);
      hostIndex, groupIndex, containerMap := hosts, groups, names;
    }

    ghost predicate Indexed()
      reads this
    {
      && (forall h :: Lookup(hostIndex, h) == LastWhere(cfg.containers, ByHost(h)))
      && (forall h :: Lookup(groupIndex, h) == LastWhere(cfg.groups, GroupByHost(h)))
      && (forall n :: Lookup(containerMap, n) == LastWhere(cfg.containers, ByName(n)))
    }

    /** Swaps the configuration, rebuilds every index and re-registers the cron jobs. */
    method ReloadConfig(newCfg: GatewayConfig)
      modifies this, scheduler, scheduler.cron
      ensures Indexed() && cfg == newCfg
      ensures scheduler.State() == Synced(scheduler.Lib(), old(scheduler.State()), newCfg.containers,
                                          GlobalLocation(scheduler.Lib(), newCfg))
    {
      cfg := newCfg;
      hostIndex := BuildHostIndex(newCfg.containers);
      groupIndex := BuildGroupHostIndex(newCfg.groups);
      containerMap := BuildContainerMap(newCfg.containers);
      scheduler.Sync(newCfg.containers, GlobalLocation(scheduler.Lib(), newCfg));
    }

    /** The last entry of a host wins; on a valid configuration that is what a linear scan would find. */
    method ResolveConfig(host: string, param: string) returns (r: Option<ContainerConfig>)
      requires Indexed()
      ensures r == IndexConfig(cfg, host, param)
      ensures forall lib, clock :: Valid(cfg, lib, clock) ==> r == ScanConfig(cfg, host, param)
    {
      forall lib, clock | Valid(cfg, lib, clock)
        ensures forall h :: FirstWhere(cfg.containers, ByHost(h)) == LastWhere(cfg.containers, ByHost(h))
      {
        AtMostOneMatch(cfg, lib, clock);
      }
      if host in hostIndex {
        assert Lookup(hostIndex, host).Some?;
        return Some(hostIndex[host]);
      }
      assert Lookup(hostIndex, host).None?;
      var idx := LastColon(host);
      if idx.Some? {
        assert Lookup(hostIndex, host[..idx.value]) == LastWhere(cfg.containers, ByHost(host[..idx.value]));
        if host[..idx.value] in hostIndex {
          return Some(hostIndex[host[..idx.value]]);
        }
      }
      if param != "" {
        for i := 0 to |cfg.containers|
          invariant FirstWhere(cfg.containers, ByName(param)) == FirstWhere(cfg.containers[i..], ByName(param))
        {
          if cfg.containers[i].name == param {
            return Some(cfg.containers[i]);
          }
        }
      }
      return None;
    }

    method ResolveGroup(host: string) returns (r: Option<GroupConfig>)
      requires Indexed()
      ensures r == IndexGroup(cfg, host)
      ensures forall lib, clock :: Valid(cfg, lib, clock) ==> r == ScanGroup(cfg, host)
    {
      forall lib, clock | Valid(cfg, lib, clock)
        ensures forall h :: FirstWhere(cfg.groups, GroupByHost(h)) == LastWhere(cfg.groups, GroupByHost(h))
      {
        AtMostOneMatch(cfg, lib, clock);
      }
      assert Lookup(groupIndex, host) == LastWhere(cfg.groups, GroupByHost(host));
      if host in groupIndex {
        return Some(groupIndex[host]);
      }
      var idx := LastColon(host);
      if idx.Some? {
        assert Lookup(groupIndex, host[..idx.value]) == LastWhere(cfg.groups, GroupByHost(host[..idx.value]));
        if host[..idx.value] in groupIndex {
          return Some(groupIndex[host[..idx.value]]);
        }
      }
      return None;
    }
  }

  /** The location Sync is given; nil if the zone cannot be found. */
  function GlobalLocation(lib: Library, cfg: GatewayConfig): Location {
    var l := ResolveLocation(lib, cfg.gateway.scheduleTimezone);
    if l.Some? then l.value else NilLocation
  }

  /** What the server hands to Sync for a configuration. */
  function RequestOf(lib: Library, cfg: GatewayConfig): Request { Request(cfg.containers, GlobalLocation(lib, cfg)) }

  lemma ValidRequestIsTidy(lib: Library, cfg: GatewayConfig, clock: int)
    requires Valid(cfg, lib, clock)
    ensures Tidy(lib, RequestOf(lib, cfg).containers, RequestOf(lib, cfg).loc)
  {
    ValidIsTidy(cfg, lib, clock, GlobalLocation(lib, cfg));
  }

  // ---------------------------------------------------------------- discovery passes

  /** A configuration handed to the server, the clock it was validated at, and the static configuration
      of that time. */
  datatype Push = Push(config: GatewayConfig, clock: int, base: GatewayConfig)

  class DiscoveryManager {
    const server: Server
    var staticConfig: GatewayConfig
    var lastConfig: Option<GatewayConfig>
    ghost var pushes: seq<Push>
    ghost var syncs: seq<Request>
    ghost const initial: GatewayConfig

    constructor (server: Server, staticConfig: GatewayConfig)
      requires server.Indexed() && server.scheduler.State() == EMPTY
      ensures this.server == server && this.staticConfig == staticConfig && initial == server.cfg
      ensures Coherent() && pushes == [] && syncs == []
    {
      this.server, this.staticConfig := server, staticConfig;
      lastConfig, pushes, syncs, initial := None, [], [], server.cfg;
    }

    function Lib(): Library { server.scheduler.Lib() }

    /** What every pass and every reload keeps. */
    ghost predicate Coherent()
      reads this, server, server.scheduler, server.scheduler.cron
    {
      && server.Indexed()
      && server.cfg == (if pushes == [] then initial else pushes[|pushes| - 1].config)
      && (lastConfig.Some? ==> pushes != [] && lastConfig.value == pushes[|pushes| - 1].config)
      && (forall p :: p in pushes ==> Valid(p.config, Lib(), p.clock) && p.config.groups == [])
      && (forall p :: p in pushes ==>
            p.config.gateway == p.base.gateway && p.base.containers <= p.config.containers)
      && server.scheduler.State() == History(Lib(), EMPTY, syncs)
      && (forall q :: q in syncs ==> Tidy(Lib(), q.containers, q.loc))
    }

    /** One pass, taken as a whole. A failed listing and an invalid merge change nothing; otherwise the
        server ends up with the merge, and is only told when it does not have it yet. */
    method RunDiscovery(listing: Option<seq<ContainerConfig>>, clock: int)
      requires Coherent()
      modifies this, server, server.scheduler, server.scheduler.cron
      ensures Coherent() && staticConfig == old(staticConfig)
      ensures listing.None? || !Valid(Merged(staticConfig, listing.value), Lib(), clock) ==>
                lastConfig == old(lastConfig) && pushes == old(pushes) && server.cfg == old(server.cfg)
      ensures listing.Some? && Valid(Merged(staticConfig, listing.value), Lib(), clock) ==>
                && server.cfg == Merged(staticConfig, listing.value) && lastConfig == Some(server.cfg)
                && server.cfg.gateway == staticConfig.gateway && staticConfig.containers <= server.cfg.containers
                && pushes == old(pushes) + if old(lastConfig) == lastConfig then []
                                           else [Push(server.cfg, clock, staticConfig)]
      ensures syncs == old(syncs) + if pushes == old(pushes) then [] else [RequestOf(Lib(), server.cfg)]
    {
      hide History, Synced, Kept, Valid, Tidy;
      if listing.None? {
        return;
      }
      var merged := MergeConfigs(staticConfig, listing.value);
      var invalid := Validate(merged, Lib(), clock);
      if invalid.Some? {
        return;
      }
      if lastConfig == Some(merged) {
        return;
      }
      lastConfig := Some(merged);
      server.ReloadConfig(merged);
      pushes := pushes + [Push(merged, clock, staticConfig)];
      NextSync(Lib(), syncs, RequestOf(Lib(), merged));
      ValidRequestIsTidy(Lib(), merged, clock);
      syncs := syncs + [RequestOf(Lib(), merged)];
    }

    /** A reload of the static file forgets the cache and runs a pass at once. */
    method UpdateStaticConfig(cfg: GatewayConfig, listing: Option<seq<ContainerConfig>>, clock: int)
      requires Coherent()
      modifies this, server, server.scheduler, server.scheduler.cron
      ensures Coherent() && staticConfig == cfg
      ensures listing.Some? && Valid(Merged(cfg, listing.value), Lib(), clock) ==>
                server.cfg == Merged(cfg, listing.value) && pushes == old(pushes) + [Push(server.cfg, clock, cfg)]
      ensures !(listing.Some? && Valid(Merged(cfg, listing.value), Lib(), clock)) ==>
                server.cfg == old(server.cfg) && pushes == old(pushes)
      ensures syncs == old(syncs) + if pushes == old(pushes) then [] else [RequestOf(Lib(), server.cfg)]
    {
      staticConfig := cfg;
      lastConfig := None;
      RunDiscovery(listing, clock);
    }
  }

  lemma NextSync(lib: Library, syncs: seq<Request>, q: Request)
    ensures History(lib, EMPTY, syncs + [q]) == Synced(lib, History(lib, EMPTY, syncs), q.containers, q.loc)
  {
    assert (syncs + [q])[..|syncs|] == syncs;
  }

  // ---------------------------------------------------------------- startup, and the cron of every run

  /** main.go: one discovery pass, then the jobs of the static configuration, which LoadConfig has
      validated. */
  method Startup(parse: Parser, locate: string -> Option<Location>, cfg: GatewayConfig, loaded: int,
                 listing: Option<seq<ContainerConfig>>, clock: int) returns (dm: DiscoveryManager)
    requires Valid(cfg, Library(parse, locate), loaded)
    ensures fresh(dm) && fresh(dm.server) && fresh(dm.server.scheduler) && fresh(dm.server.scheduler.cron)
    ensures dm.Coherent() && dm.staticConfig == cfg && dm.initial == cfg && dm.Lib() == Library(parse, locate)
    ensures dm.pushes == if listing.Some? && Valid(Merged(cfg, listing.value), dm.Lib(), clock)
                         then [Push(Merged(cfg, listing.value), clock, cfg)] else []
    ensures dm.syncs != [] && dm.syncs[|dm.syncs| - 1] == RequestOf(dm.Lib(), cfg)
  {
    hide History, Synced, Merged, Valid, Tidy;
    var cron := new Cron(parse);
    var scheduler := new ScheduleManager(cron, locate);
    var server := new Server(scheduler, cfg);
    dm := new DiscoveryManager(server, cfg);
    dm.RunDiscovery(listing, clock);
    scheduler.Sync(cfg.containers, GlobalLocation(dm.Lib(), cfg));
    NextSync(dm.Lib(), dm.syncs, RequestOf(dm.Lib(), cfg));
    ValidRequestIsTidy(dm.Lib(), cfg, loaded);
    dm.syncs := dm.syncs + [RequestOf(dm.Lib(), cfg)];
  }

  /** At every moment of every run: no job is leaked, and the live jobs are, one for one, those of the
      last synchronised list. */
  lemma CronOfEveryRun(dm: DiscoveryManager) returns (base: int)
    requires dm.Coherent() && dm.syncs != []
    ensures Orphans(dm.server.scheduler.State()) == {}
    ensures
      var last, live := dm.syncs[|dm.syncs| - 1], dm.server.scheduler.State().live;
      live == AddJobs(map[], base, AllJobs(dm.Lib(), last.containers, last.loc))
  {
    var k := |dm.syncs| - 1;
    assert dm.syncs == dm.syncs[..k] + [dm.syncs[k]];
    LiveJobsAreThoseOfTheLastSync(dm.Lib(), dm.syncs[..k], dm.syncs[k]);
    HistoryStaysClean(dm.Lib(), dm.syncs);
    base := History(dm.Lib(), EMPTY, dm.syncs[..k]).lastId;
  }
}
