/** gateway/manager.go: the container lifecycle, run by one goroutine against an adversarial Docker.
    How several goroutines interleave is the subject of module StartProtocol. */
module Manager {
  import opened Wrappers
  import opened Config
  import opened DependencyGraph
  import opened TopoSort
  import opened MergeStop
  import opened Docker
  import opened Cascade
  import opened StartCall
  import opened StartTrace

  /** A successful stop resets the start state to unknown. */
  ghost function StateAfter(calls: seq<Call>, before: map<string, StartState>, n: string): Option<StartState> {
    if exists c :: c in calls && c.ok && c.name == n then Some(Unknown) else Lookup(before, n)
  }

  /** An inspection of `d` did not show it running. */
  ghost predicate SeenDown(d: string, said: seq<Answer>) {
    exists a :: a in said && a.Inspected? && a.name == d && a.status != Some(Running)
  }

  /** Whatever Docker does meanwhile, a member is only stopped when it has just been seen running, after
      every declared dependent outside the set was seen not running. */
  ghost predicate StoppedByAnswers(n: string, cfgs: seq<ContainerConfig>, toStop: set<string>, ok: bool,
                                   said: seq<Answer>) {
    && |said| >= 2 && said[|said| - 1] == StopAsked(n, ok) && said[|said| - 2] == Inspected(n, Some(Running))
    && forall c :: c in cfgs && n in c.dependsOn && c.name !in toStop ==> SeenDown(c.name, said)
  }

  ghost predicate StatesReset(calls: seq<Call>, before: map<string, StartState>, after: map<string, StartState>) {
    forall n :: Lookup(after, n) == StateAfter(calls, before, n)
  }

  /** What a pass over `toStop` may do: whatever happens, orderly requests and matching start states;
      if every inspection is answered and nobody else acts, the requests and worlds of a quiet pass,
      whether or not the requests succeed. */
  ghost predicate PassOutcome(cfgs: seq<ContainerConfig>, toStop: set<string>, calls: seq<Call>,
                              w0: World, w: World, quiet: bool,
                              before: map<string, StartState>, after: map<string, StartState>) {
    && OrderlyStops(cfgs, toStop, calls)
    && (quiet ==> QuietPass(w0, cfgs, toStop, calls, w))
    && StatesReset(calls, before, after)
  }

  ghost predicate StopsWhatIsPulledDown(cfgs: seq<ContainerConfig>, idle: seq<string>, calls: seq<Call>, w0: World,
                                        w: World) {
    && (forall n :: Requested(calls, n) <==> PulledDown(w0, cfgs, idle, n))
    && (forall n :: IsRunning(w, n) <==> IsRunning(w0, n) && !(PulledDown(w0, cfgs, idle, n) && Succeeded(calls, n)))
  }

  lemma WatcherStops(cfgs: seq<ContainerConfig>, idle: seq<string>, calls: seq<Call>, w0: World, w: World,
                     before: map<string, StartState>, after: map<string, StartState>)
    requires PassOutcome(cfgs, StopSet(cfgs, idle), calls, w0, w, true, before, after)
    ensures StopsWhatIsPulledDown(cfgs, idle, calls, w0, w)
  {
    hide PulledDown;
    forall n
      ensures Requested(calls, n) <==> PulledDown(w0, cfgs, idle, n)
      ensures IsRunning(w, n) <==> IsRunning(w0, n) && !(PulledDown(w0, cfgs, idle, n) && Succeeded(calls, n))
    {
      StopRequestedIff(w0, cfgs, idle, calls, w, n);
    }
  }

  /** A successful stop makes the start state unknown, nothing else touches one. */
  lemma PassShows(cfgs: seq<ContainerConfig>, toStop: set<string>, calls: seq<Call>, w0: World, w: World, quiet: bool,
                  before: map<string, StartState>, after: map<string, StartState>)
    requires PassOutcome(cfgs, toStop, calls, w0, w, quiet, before, after)
    ensures OrderlyStops(cfgs, toStop, calls)
    ensures forall c :: c in calls && c.ok ==> Lookup(after, c.name) == Some(Unknown)
    ensures forall n :: !Succeeded(calls, n) ==> Lookup(after, n) == Lookup(before, n)
  {
    hide OrderlyStops, QuietPass;
    forall n ensures Lookup(after, n) == StateAfter(calls, before, n) {}
  }

  /** Nothing to stop, nothing done. */
  lemma IdlePass(cfgs: seq<ContainerConfig>, w: World, quiet: bool, states: map<string, StartState>)
    ensures PassOutcome(cfgs, {}, [], w, w, quiet, states, states)
  {}

  // ---------------------------------------------------------------- activity stamps

  ghost function FallbackStamp(g: Graph, roots: seq<string>, later: int, before: map<string, int>,
                               n: string): Option<int> {
    if n in roots && !Sortable(g, n) then Some(later) else Lookup(before, n)
  }

  /** The closures of the sortable roots carry `now`, unsortable roots `later`, everything else is untouched. */
  ghost function StampAfter(g: Graph, roots: seq<string>, now: int, later: int, before: map<string, int>,
                            n: string): Option<int> {
    if InSomeClosure(g, roots, n) then Some(now) else FallbackStamp(g, roots, later, before, n)
  }

  lemma StampsInPlainTerms(g: Graph, roots: seq<string>, now: int, later: int, before: map<string, int>,
                           after: map<string, int>)
    requires forall n :: Lookup(after, n) == StampAfter(g, roots, now, later, before, n)
    ensures forall r, n :: r in roots && Sortable(g, r) && Reaches(g, r, n) ==> n in after && after[n] == now
    ensures forall r :: r in roots && !Sortable(g, r) ==> r in after && after[r] in {now, later}
    ensures forall n :: (forall r :: r in roots ==> r != n && !Reaches(g, r, n)) ==>
              Lookup(after, n) == Lookup(before, n)
  {
    hide Sortable, Reaches;
    forall r, n | r in roots && Sortable(g, r) && Reaches(g, r, n) ensures n in after && after[n] == now {
      assert InSomeClosure(g, roots, n);
      assert Lookup(after, n) == Some(now);
    }
    forall r | r in roots && !Sortable(g, r) ensures r in after && after[r] in {now, later} {
      assert Lookup(after, r) == StampAfter(g, roots, now, later, before, r);
    }
    forall n | forall r :: r in roots ==> r != n && !Reaches(g, r, n) ensures Lookup(after, n) == Lookup(before, n) {
      assert !InSomeClosure(g, roots, n) && n !in roots;
    }
  }

  class ContainerManager {
    const client: DockerClient
    var lastSeen: map<string, int>
    var startStates: map<string, StartState>
    var clock: int

    constructor (client: DockerClient, clock: int)
      ensures this.client == client && lastSeen == map[] && startStates == map[] && this.clock == clock
    {
      this.client, this.clock := client, clock;
      lastSeen, startStates := map[], map[];
    }

    ghost function Now(): View
      reads this, client
    {
      View(client.world, client.still, client.heard, lastSeen, startStates, clock)
    }

    /** The clock never runs backwards. */
    method ReadClock() returns (now: int)
      modifies `clock
      ensures now == clock && clock >= old(clock)
    {
      now := *;
      if now < clock {
        now := clock;
      }
      clock := now;
    }

    method SetStartState(name: string, state: StartState)
      modifies `startStates
      ensures startStates == old(startStates)[name := state]
    {
      startStates := startStates[name := state];
    }

    method InitStartState(name: string)
      modifies `startStates
      ensures startStates == old(startStates)[name := Starting]
    {
      SetStartState(name, Starting);
    }

    method RecordActivity(name: string, now: int)
      modifies `lastSeen
      ensures lastSeen == old(lastSeen)[name := now]
    {
      lastSeen := lastSeen[name := now];
    }

    // -------------------------------------------------------------- activity

    /** `now` is read once; a root that cannot be sorted is stamped with a second reading `later`.
        Exactly the closures of the sortable roots and the unsortable roots themselves are stamped. */
    method RecordActivityChain(roots: seq<string>, allContainers: seq<ContainerConfig>, now: int, later: int)
      modifies `lastSeen
      ensures forall n :: Lookup(lastSeen, n) == StampAfter(Deps(allContainers), roots, now, later, old(lastSeen), n)
      ensures forall r, n :: r in roots && Sortable(Deps(allContainers), r) && Reaches(Deps(allContainers), r, n) ==>
                n in lastSeen && lastSeen[n] == now
      ensures forall r :: r in roots && !Sortable(Deps(allContainers), r) ==>
                r in lastSeen && lastSeen[r] in {now, later}
      ensures forall n :: (forall r :: r in roots ==> r != n && !Reaches(Deps(allContainers), r, n)) ==>
                Lookup(lastSeen, n) == Lookup(old(lastSeen), n)
    {
      hide InDeclaredOrder;
      ghost var g := Deps(allContainers);
      var toUpdate: set<string> := {};
      for i := 0 to |roots|
        invariant forall n :: n in toUpdate <==> InSomeClosure(g, roots[..i], n)
        invariant forall n :: Lookup(lastSeen, n) == FallbackStamp(g, roots[..i], later, old(lastSeen), n)
      {
        ClosureOfMore(g, roots, i);
        assert roots[..i + 1] == roots[..i] + [roots[i]];
        ghost var prev := lastSeen;
        var chain := TopologicalSort(roots[i], allContainers);
        if chain.Err? {
          RecordActivity(roots[i], later);
        } else {
          toUpdate := toUpdate + set n | n in chain.value;
        }
        forall n ensures Lookup(lastSeen, n) == FallbackStamp(g, roots[..i + 1], later, old(lastSeen), n) {
          assert Lookup(prev, n) == FallbackStamp(g, roots[..i], later, old(lastSeen), n);
        }
      }
      assert roots[..|roots|] == roots;
      StampAll(toUpdate, now);
      StampsInPlainTerms(g, roots, now, later, old(lastSeen), lastSeen);
    }

    method StampAll(names: set<string>, now: int)
      modifies `lastSeen
      ensures forall n :: Lookup(lastSeen, n) == if n in names then Some(now) else Lookup(old(lastSeen), n)
    {
      var todo := names;
      while todo != {}
        invariant todo <= names
        invariant forall n :: n in names - todo ==> Lookup(lastSeen, n) == Some(now)
        invariant forall n :: n !in names - todo ==> Lookup(lastSeen, n) == Lookup(old(lastSeen), n)
      {
        var name :| name in todo;
        lastSeen := lastSeen[name := now];
        todo := todo - {name};
      }
    }

    // -------------------------------------------------------------- starting

    /** One call, run alone; `said` is what it was told. A first inspection that finds the container
        running is success at once and leaves the start state as it was; otherwise one start is asked
        for, and the last answer alone decides. So undisturbed success means the state reads running
        exactly when the container was down or the state read so before. */
    method EnsureRunning(cfg: ContainerConfig) returns (r: Result<(), StartError>, ghost said: seq<Answer>)
      modifies this`lastSeen, this`startStates, this`clock, client`world, client`still, client`candid, client`heard
      ensures Outcome(cfg.name, r, said, old(Now()), Now())
      ensures r == Err(Crashed) ==> Lookup(client.world, cfg.name) in {Some(Exited), Some(Dead)}
      ensures client.still && client.candid ==> (|said| == 1 <==> IsRunning(old(client.world), cfg.name))
      ensures r.Ok? && client.still && client.candid ==>
                (Lookup(startStates, cfg.name) == Some(Ready) <==>
                   !IsRunning(old(client.world), cfg.name) || Lookup(old(startStates), cfg.name) == Some(Ready))
    {
      hide Told, Booked;
      var status := client.GetContainerStatus(cfg.name);
      ToldBeforePolls(cfg.name, status);
      if status == Some(Running) {
        var now := ReadClock();
        RecordActivity(cfg.name, now);
        said := [Inspected(cfg.name, status)];
        StampBooks(cfg.name, old(lastSeen), old(clock), now);
        return Ok(()), said;
      }
      ghost var rest;
      r, rest := StartAndAwait(cfg, status);
      said := [Inspected(cfg.name, status)] + rest;
      assert client.heard == old(client.heard) + said;
    }

    /** EnsureRunning after a first inspection that did not find the container running. */
    method StartAndAwait(cfg: ContainerConfig, ghost status: Option<Status>)
      returns (r: Result<(), StartError>, ghost rest: seq<Answer>)
      requires status != Some(Running)
      modifies this`lastSeen, this`startStates, this`clock, client`world, client`still, client`candid, client`heard
      ensures client.heard == old(client.heard) + rest && rest != []
      ensures Told(cfg.name, [Inspected(cfg.name, status)] + rest, r)
      ensures Booked(cfg.name, r.Ok?, old(lastSeen), lastSeen, old(clock), clock)
      ensures startStates == old(startStates)[cfg.name := if r.Ok? then Ready else Failed(Message(r.error))]
      ensures client.candid ==> old(client.candid)
      ensures client.still ==> Raises(cfg.name, r.Ok?, [Inspected(cfg.name, status)] + rest, old(Now()), Now())
      ensures r == Err(Crashed) ==> Lookup(client.world, cfg.name) in {Some(Exited), Some(Dead)}
    {
      hide Told, Booked, Polled;
      ToldBeforePolls(cfg.name, status);
      NoStampBooks(cfg.name, lastSeen, clock);
      SetStartState(cfg.name, Starting);
      var ok, at := client.StartContainer(cfg.name);
      rest := [StartAsked(cfg.name, ok)];
      if !ok {
        assert [Inspected(cfg.name, status)] + rest == [Inspected(cfg.name, status), StartAsked(cfg.name, false)];
        SetStartState(cfg.name, Failed(Message(StartFailed)));
        return Err(StartFailed), rest;
      }
      var address := client.GetContainerAddress(cfg.name);
      rest := rest + [Located(cfg.name, address)];
      assert [Inspected(cfg.name, status)] + rest ==
             [Inspected(cfg.name, status), StartAsked(cfg.name, true), Located(cfg.name, address)];
      if !address {
        SetStartState(cfg.name, Failed(Message(NoAddress)));
        return Err(NoAddress), rest;
      }
      ghost var polls;
      r, polls := AwaitReady(cfg);
      ToldWithPolls(cfg.name, status, polls, r);
      ghost var asked := [Inspected(cfg.name, status)] + rest;
      rest := rest + polls;
      assert [Inspected(cfg.name, status)] + rest == asked + polls;
    }

    /** The polling loop of EnsureRunning; `polls` is what it was told. */
    method AwaitReady(cfg: ContainerConfig) returns (r: Result<(), StartError>, ghost polls: seq<Answer>)
      modifies this`lastSeen, this`startStates, this`clock, client`world, client`still, client`candid, client`heard
      ensures client.still ==> old(client.still) && client.world == old(client.world)
      ensures client.candid ==> old(client.candid)
      ensures client.heard == old(client.heard) + polls && Polled(cfg.name, polls, r)
      ensures r == Err(Crashed) ==> Lookup(client.world, cfg.name) in {Some(Exited), Some(Dead)}
      ensures Booked(cfg.name, r.Ok?, old(lastSeen), lastSeen, old(clock), clock)
      ensures startStates == old(startStates)[cfg.name := if r.Ok? then Ready else Failed(Message(r.error))]
    {
      hide Polled, GoesOn, Booked;
      polls := [];
      NoPolls(cfg.name);
      NoStampBooks(cfg.name, lastSeen, clock);
      // How many polls the start timeout leaves room for is not known in advance.
      var ticks: nat := *;
      while ticks > 0
        invariant startStates == old(startStates) && lastSeen == old(lastSeen) && clock == old(clock)
        invariant client.still ==> old(client.still) && client.world == old(client.world)
        invariant client.candid ==> old(client.candid)
        invariant client.heard == old(client.heard) + polls && GoesOn(cfg.name, polls)
      {
        ticks := ticks - 1;
        var status := client.GetContainerStatus(cfg.name);
        PollsGoOn(cfg.name, polls, status);
        polls := polls + [Inspected(cfg.name, status)];
        if status == Some(Exited) || status == Some(Dead) {
          SetStartState(cfg.name, Failed(Message(Crashed)));
          return Err(Crashed), polls;
        }
        var ready := client.Probe(cfg.name);
        polls := polls + [Probed(cfg.name, ready)];
        if ready {
          var now := ReadClock();
          RecordActivity(cfg.name, now);
          StampBooks(cfg.name, old(lastSeen), old(clock), now);
          SetStartState(cfg.name, Ready);
          return Ok(()), polls;
        }
      }
      SetStartState(cfg.name, Failed(Message(TimedOut)));
      PollsRunOut(cfg.name, polls);
      return Err(TimedOut), polls;
    }

    /** Starts the proper dependencies of `target`. `calls` is the trace of EnsureRunning calls made. */
    method EnsureDepsRunning(target: string, allContainers: seq<ContainerConfig>)
      returns (r: Result<(), EnsureError>, ghost calls: seq<EnsureCall>)
      modifies this`lastSeen, this`startStates, this`clock, client`world, client`still, client`candid, client`heard
      ensures DependenciesFirst(Deps(allContainers), calls) && NothingAfterFailure(calls)
      ensures OnlyBelow(Deps(allContainers), target, calls)
      ensures r.Ok? <==> Sortable(Deps(allContainers), target) && AllOk(calls)
      ensures r.Ok? ==> DepsEnsured(Deps(allContainers), target, calls)
      ensures calls != [] ==> FollowsPlan(Deps(allContainers), target, calls)
      ensures r.Err? && r.error.Resolution? ==>
        calls == [] && Explains(Deps(allContainers), target, r.error.sortError)
      ensures r.Err? && r.error.NotStarted? ==> calls != [] && calls[|calls| - 1] == EnsureCall(r.error.name, false)
      ensures Carried(calls, old(Now()), Now())
      ensures client.still ==> forall c :: c in calls && c.ok ==> IsRunning(client.world, c.name)
      ensures client.still && r.Ok? ==>
        forall n :: Reaches(Deps(allContainers), target, n) && n != target ==> IsRunning(client.world, n)
    {
      hide InDeclaredOrder, Sortable, Reaches, OnCycle, DependenciesFirst, NothingAfterFailure, AllOk, DepsEnsured,
        OnlyBelow, DepsSoFar, Carried, Outcome, IsStartOrder, Along;
      ghost var g := Deps(allContainers);
      ghost var start := Now();
      EmptyTrace(g, target);
      CarriedNothing(start);
      calls := [];
      var order := TopologicalSort(target, allContainers);
      if order.Err? {
        CarriedServes([], start, Now());
        return Err(Resolution(order.error)), [];
      }
      var names := order.value;
      var cfgMap := BuildContainerMap(allContainers);
      SortedNamesResolve(g, target, names);
      assert IsPlan(g, target, names);
      DepsBegin(g, target, names);
      for i := 0 to |names|
        invariant DepsSoFar(g, names, i, calls)
        invariant Carried(calls, start, Now())
      {
        var name := names[i];
        if name != target {
          // The lookup cannot fail: the sort has already resolved every name.
          assert name in g;
          ghost var before := Now();
          InitStartState(name);
          var e, said := EnsureRunning(cfgMap[name]);
          CarriedMore(calls, name, e, said, start, before, Now());
          DepsStep(g, target, names, i, calls, e.Ok?);
          calls := calls + [EnsureCall(name, e.Ok?)];
          if e.Err? {
            CarriedServes(calls, start, Now());
            return Err(NotStarted(name, e.error)), calls;
          }
        } else {
          DepsSkipTarget(g, target, names, i, calls);
        }
      }
      DepsDone(g, target, names, calls);
      CarriedServes(calls, start, Now());
      DepsServed(g, target, calls, client.world);
      return Ok(()), calls;
    }

    /** First loop of EnsureGroupRunning. */
    method EnsureAllDeps(members: seq<string>, allContainers: seq<ContainerConfig>)
      returns (r: Result<(), EnsureError>, ghost calls: seq<EnsureCall>)
      modifies this`lastSeen, this`startStates, this`clock, client`world, client`still, client`candid, client`heard
      ensures DependenciesFirst(Deps(allContainers), calls) && NothingAfterFailure(calls)
      ensures r.Ok? ==> AllOk(calls)
      ensures r.Ok? ==> forall m :: m in members ==>
        m in Deps(allContainers) && DepsEnsured(Deps(allContainers), m, calls)
      ensures r.Err? ==> FailureExplained(Deps(allContainers), members, r.error, calls)
      ensures Carried(calls, old(Now()), Now())
    {
      calls := [];
      ghost var g := Deps(allContainers);
      ghost var start := Now();
      CarriedNothing(start);
      hide Carried, Outcome;
      for i := 0 to |members|
        invariant Carried(calls, start, Now())
        invariant DependenciesFirst(g, calls) && AllOk(calls)
        invariant forall k :: 0 <= k < i ==> members[k] in g && DepsEnsured(g, members[k], calls)
      {
        ReachesSelf(g, members[i]);
        ghost var now := Now();
        var e, more := EnsureDepsRunning(members[i], allContainers);
        CarriedJoin(calls, more, start, now, Now());
        TracesCompose(g, calls, more);
        MoreCallsKeepDeps(g, members[..i], calls, more);
        ghost var before := calls;
        calls := calls + more;
        if e.Err? {
          return e, calls;
        }
        assert DepsEnsured(g, members[i], calls);
      }
      return Ok(()), calls;
    }

    /** Second loop of EnsureGroupRunning; `prior` are the calls of the first. */
    method EnsureMembers(members: seq<string>, cfgMap: map<string, ContainerConfig>, ghost prior: seq<EnsureCall>,
                         ghost start: View)
      returns (r: Result<(), EnsureError>, ghost calls: seq<EnsureCall>)
      requires forall m :: m in cfgMap ==> cfgMap[m].name == m
      requires forall m :: m in members ==> m in cfgMap && DepsEnsured(GraphOf(cfgMap), m, prior)
      requires Carried(prior, start, Now())
      requires DependenciesFirst(GraphOf(cfgMap), prior) && AllOk(prior)
      modifies this`lastSeen, this`startStates, this`clock, client`world, client`still, client`candid, client`heard
      ensures DependenciesFirst(GraphOf(cfgMap), calls) && NothingAfterFailure(calls)
      ensures r.Ok? ==> AllOk(calls) && forall m :: m in members ==> FullyEnsured(GraphOf(cfgMap), m, calls)
      ensures r.Err? ==> FailureExplained(GraphOf(cfgMap), members, r.error, calls)
      ensures Carried(calls, start, Now())
    {
      calls := prior;
      ghost var g := GraphOf(cfgMap);
      hide Carried, Outcome;
      for i := 0 to |members|
        invariant DependenciesFirst(g, calls) && AllOk(calls)
        invariant forall m :: m in members ==> DepsEnsured(g, m, calls)
        invariant forall k :: 0 <= k < i ==> EnsureCall(members[k], true) in calls
        invariant Carried(calls, start, Now())
      {
        ghost var before := Now();
        InitStartState(members[i]);
        var e, said := EnsureRunning(cfgMap[members[i]]);
        CarriedMore(calls, members[i], e, said, start, before, Now());
        TraceExtends(g, calls, members[i], e.Ok?);
        MoreCallsKeepDeps(g, members, calls, [EnsureCall(members[i], e.Ok?)]);
        calls := calls + [EnsureCall(members[i], e.Ok?)];
        if e.Err? {
          return Err(NotStarted(members[i], e.error)), calls;
        }
      }
      return Ok(()), calls;
    }

    /** nil exactly when everything was ensured, in a quiet world when all of it runs; at every moment
        dependencies come first, and Docker was asked exactly what the trace says. The
        "member not found" branch after the first loop is unreachable: that loop resolves every member. */
    method EnsureGroupRunning(group: GroupConfig, allContainers: seq<ContainerConfig>)
      returns (r: Result<(), EnsureError>, ghost calls: seq<EnsureCall>)
      modifies this`lastSeen, this`startStates, this`clock, client`world, client`still, client`candid, client`heard
      ensures DependenciesFirst(Deps(allContainers), calls) && NothingAfterFailure(calls)
      ensures r.Ok? ==> AllOk(calls)
      ensures r.Ok? ==> forall m :: m in group.containers ==> FullyEnsured(Deps(allContainers), m, calls)
      ensures r.Err? ==> FailureExplained(Deps(allContainers), group.containers, r.error, calls)
      ensures Carried(calls, old(Now()), Now())
      ensures client.still ==> forall c :: c in calls && c.ok ==> IsRunning(client.world, c.name)
      ensures client.still && r.Ok? ==>
        forall m, n :: m in group.containers && Reaches(Deps(allContainers), m, n) ==> IsRunning(client.world, n)
    {
      ghost var start := Now();
      var cfgMap := BuildContainerMap(allContainers);
      r, calls := EnsureAllDeps(group.containers, allContainers);
      if r.Ok? {
        r, calls := EnsureMembers(group.containers, cfgMap, calls, start);
      }
      CarriedServes(calls, start, Now());
      GroupServed(Deps(allContainers), group.containers, calls, client.world);
    }

    // -------------------------------------------------------------- stopping

    /** One iteration of the cascade: skip `name` if a running outsider needs it, else stop it if it runs. */
    method StopUnlessNeeded(name: string, revDeps: map<string, seq<string>>, toStop: set<string>,
                            ghost cfgs: seq<ContainerConfig>)
      returns (ghost calls: seq<Call>)
      requires Indexes(cfgs, revDeps) && name in toStop
      modifies this`startStates, client`world, client`still, client`candid, client`stops, client`heard
      ensures client.still ==> old(client.still)
      ensures client.candid ==> old(client.candid)
      ensures client.stops == old(client.stops) + calls
      ensures |calls| <= 1
      ensures MemberOutcome(old(client.world), cfgs, toStop, name, calls, client.world, client.still && client.candid)
      ensures startStates == if calls != [] && calls[0].ok then old(startStates)[name := Unknown] else old(startStates)
      ensures old(client.heard) <= client.heard
      ensures calls != [] ==> StoppedByAnswers(name, cfgs, toStop, calls[0].ok, client.heard[|old(client.heard)|..])
    {
      calls := [];
      ghost var said: seq<Answer> := [];
      var dependents := ListAt(revDeps, name);
      for i := 0 to |dependents|
        invariant client.still ==> old(client.still) && client.world == old(client.world)
        invariant client.candid ==> old(client.candid)
        invariant client.still && client.candid ==>
          forall k :: 0 <= k < i && dependents[k] !in toStop ==> !IsRunning(old(client.world), dependents[k])
        invariant client.heard == old(client.heard) + said
        invariant forall k :: 0 <= k < i && dependents[k] !in toStop ==> SeenDown(dependents[k], said)
        modifies client`world, client`still, client`candid, client`heard
      {
        if dependents[i] !in toStop {
          var answer := client.GetContainerStatus(dependents[i]);
          forall d ensures SeenDown(d, said) ==> SeenDown(d, said + [Inspected(dependents[i], answer)]) {}
          said := said + [Inspected(dependents[i], answer)];
          assert Inspected(dependents[i], answer) in said;
          if answer == Some(Running) {
            DependentsAreDeclared(cfgs, name, dependents[i]);
            return [];
          }
        }
      }
      forall d ensures d in dependents <==> Declares(cfgs, d, name) { DependentsAreDeclared(cfgs, name, d); }
      var status := client.GetContainerStatus(name);
      if status != Some(Running) {
        return [];
      }
      var ok, at := client.StopContainer(name);
      calls := [Call(name, at, ok)];
      ghost var all := said + [Inspected(name, status), StopAsked(name, ok)];
      assert client.heard[|old(client.heard)|..] == all;
      forall c | c in cfgs && name in c.dependsOn && c.name !in toStop ensures SeenDown(c.name, all) {
        assert Declares(cfgs, c.name, name);
        assert SeenDown(c.name, said);
      }
      if ok {
        SetStartState(name, Unknown);
      }
    }

    /** The stop loop of the cascade, from the end of `order` backwards. */
    method StopInReverse(order: seq<string>, revDeps: map<string, seq<string>>, toStop: set<string>,
                         ghost cfgs: seq<ContainerConfig>)
      returns (ghost calls: seq<Call>)
      requires Indexes(cfgs, revDeps) && IsStopOrder(cfgs, toStop, order)
      modifies this`startStates, client`world, client`still, client`candid, client`stops, client`heard
      ensures client.stops == old(client.stops) + calls
      ensures client.still ==> old(client.still)
      ensures client.candid ==> old(client.candid)
      ensures PassOutcome(cfgs, toStop, calls, old(client.world), client.world,
                          client.still && client.candid, old(startStates), startStates)
    {
      calls := [];
      ghost var w0 := client.world;
      ghost var pos: seq<nat> := [];
      var i: nat := |order|;
      PassBegins(w0, cfgs, toStop, order, client.still && client.candid);
      NothingReset(startStates);
      assert forall k :: 0 <= k < |order| ==> order[k] in toStop;
      hide Indexes, IsStopOrder, PassSoFar, MemberOutcome, StatesReset, PassOutcome;
      while i > 0
        invariant i <= |order|
        invariant client.stops == old(client.stops) + calls
        invariant client.still ==> old(client.still)
        invariant client.candid ==> old(client.candid)
        invariant PassSoFar(w0, cfgs, toStop, order, i, pos, calls, client.world, client.still && client.candid)
        invariant StatesReset(calls, old(startStates), startStates)
      {
        i := i - 1;
        ghost var w, s0, calls0, quiet := client.world, startStates, calls, client.still && client.candid;
        var more := StopUnlessNeeded(order[i], revDeps, toStop, cfgs);
        calls := calls + more;
        PassStep(w0, cfgs, toStop, order, i, pos, calls0, w, quiet, more, client.world, client.still && client.candid);
        pos := pos + if more == [] then [] else [i];
        StatesCompose(calls0, more, old(startStates), s0, startStates);
      }
      PassIsOver(w0, cfgs, toStop, order, pos, calls, client.world, client.still && client.candid,
                 old(startStates), startStates);
    }

    /** The union of the closures; entry points that cannot be sorted are skipped. */
    method CollectToStop(idleEntryPoints: seq<string>, cfgs: seq<ContainerConfig>) returns (toStop: set<string>)
      ensures toStop == StopSet(cfgs, idleEntryPoints)
    {
      hide InDeclaredOrder;
      toStop := {};
      ghost var g := Deps(cfgs);
      for i := 0 to |idleEntryPoints|
        invariant forall n :: n in toStop <==> InSomeClosure(g, idleEntryPoints[..i], n)
      {
        ClosureOfMore(g, idleEntryPoints, i);
        var chain := TopologicalSort(idleEntryPoints[i], cfgs);
        if chain.Ok? {
          toStop := toStop + set n | n in chain.value;
        }
      }
      assert idleEntryPoints[..|idleEntryPoints|] == idleEntryPoints;
    }

    /** `calls` is the trace of stop requests. Whatever Docker and the map iteration order do, they go
        to distinct members of the stop set, dependents before their dependencies. */
    method CascadeStop(idleEntryPoints: seq<string>, cfgs: seq<ContainerConfig>) returns (ghost calls: seq<Call>)
      modifies this`startStates, client`world, client`still, client`candid, client`stops, client`heard
      ensures client.stops == old(client.stops) + calls
      ensures client.still ==> old(client.still)
      ensures client.candid ==> old(client.candid)
      ensures PassOutcome(cfgs, StopSet(cfgs, idleEntryPoints), calls, old(client.world), client.world,
                          client.still && client.candid, old(startStates), startStates)
      ensures forall c :: c in calls && c.ok ==> Lookup(startStates, c.name) == Some(Unknown)
      ensures forall n :: !Succeeded(calls, n) ==> Lookup(startStates, n) == Lookup(old(startStates), n)
    {
      calls := [];
      var toStop := CollectToStop(idleEntryPoints, cfgs);
      hide PassOutcome, StopSet, IsStopOrder, Indexes;
      if toStop == {} {
        IdlePass(cfgs, client.world, client.still && client.candid, startStates);
        return;
      }
      var revDeps := BuildReverseDeps(cfgs);
      var order := TopoMergeStop(toStop, cfgs);
      MergedIsStopOrder(cfgs, toStop, order);
      calls := StopInReverse(order, revDeps, toStop, cfgs);
      PassShows(cfgs, toStop, calls, old(client.world), client.world, client.still && client.candid,
                old(startStates), startStates);
    }

    /** One tick of the idle watcher: cascade from the entry points without recent activity. Undisturbed,
        a stop is requested of exactly the containers that are pulled down, active entry points included. */
    method CheckIdle(cfgs: seq<ContainerConfig>, now: int) returns (ghost calls: seq<Call>)
      modifies this`startStates, client`world, client`still, client`candid, client`stops, client`heard
      ensures client.stops == old(client.stops) + calls
      ensures PassOutcome(cfgs, StopSet(cfgs, IdleNames(cfgs, lastSeen, now)), calls, old(client.world), client.world,
                          client.still && client.candid, old(startStates), startStates)
      ensures forall c :: c in calls ==>
                exists e :: e in cfgs && e.host != "" && e.idleTimeout != 0 && e.name in lastSeen
                            && now - lastSeen[e.name] >= e.idleTimeout && Reaches(Deps(cfgs), e.name, c.name)
      ensures forall c :: c in calls && c.ok ==> Lookup(startStates, c.name) == Some(Unknown)
      ensures forall n :: !Succeeded(calls, n) ==> Lookup(startStates, n) == Lookup(old(startStates), n)
      ensures client.still && client.candid ==>
        StopsWhatIsPulledDown(cfgs, IdleNames(cfgs, lastSeen, now), calls, old(client.world), client.world)
    {
      hide PassOutcome, StopsWhatIsPulledDown, OrderlyStops, Succeeded, Reaches;
      calls := [];
      var idleEntryPoints: seq<string> := [];
      for i := 0 to |cfgs|
        invariant idleEntryPoints == IdleNames(cfgs[..i], lastSeen, now)
      {
        assert cfgs[..i + 1][..i] == cfgs[..i];
        var cfg := cfgs[i];
        if cfg.host != "" && cfg.idleTimeout != 0 && cfg.name in lastSeen {
          if now - lastSeen[cfg.name] >= cfg.idleTimeout {
            idleEntryPoints := idleEntryPoints + [cfg.name];
          }
        }
      }
      assert cfgs[..|cfgs|] == cfgs;
      if |idleEntryPoints| > 0 {
        calls := CascadeStop(idleEntryPoints, cfgs);
      } else {
        assert StopSet(cfgs, []) == {};
        IdlePass(cfgs, client.world, client.still && client.candid, startStates);
      }
      PassShows(cfgs, StopSet(cfgs, idleEntryPoints), calls, old(client.world), client.world,
                client.still && client.candid, old(startStates), startStates);
      StopsComeFromIdle(cfgs, lastSeen, now, calls);
      if client.still && client.candid {
        WatcherStops(cfgs, idleEntryPoints, calls, old(client.world), client.world, old(startStates), startStates);
      }
    }
  }

  lemma MergedIsStopOrder(cfgs: seq<ContainerConfig>, toStop: set<string>, order: seq<string>)
    requires Distinct(order) && (forall n :: n in order <==> n in toStop)
    requires DepsFirst(Within(Deps(cfgs), toStop), order) <==> Acyclic(Within(Deps(cfgs), toStop))
    ensures IsStopOrder(cfgs, toStop, order)
  {
    var g := Deps(cfgs);
    forall i, j | Acyclic(g) && 0 <= i < |order| && 0 <= j < |order| && Edge(g, order[i], order[j]) ensures j < i {
      EdgesPointBackwards(g, toStop, order, i, order[j]);
      var k :| 0 <= k < i && order[..i][k] == order[j];
      assert order[k] == order[j];
    }
  }

  lemma NothingReset(states: map<string, StartState>)
    ensures StatesReset([], states, states)
  {}

  lemma PassIsOver(w0: World, cfgs: seq<ContainerConfig>, toStop: set<string>, order: seq<string>, pos: seq<nat>,
                   calls: seq<Call>, w: World, quiet: bool,
                   before: map<string, StartState>, after: map<string, StartState>)
    requires IsStopOrder(cfgs, toStop, order) && PassSoFar(w0, cfgs, toStop, order, 0, pos, calls, w, quiet)
    requires StatesReset(calls, before, after)
    ensures PassOutcome(cfgs, toStop, calls, w0, w, quiet, before, after)
  {
    PassEnds(w0, cfgs, toStop, order, pos, calls, w, quiet);
  }

  lemma StatesCompose(calls: seq<Call>, more: seq<Call>, before: map<string, StartState>,
                      mid: map<string, StartState>, after: map<string, StartState>)
    requires |more| <= 1
    requires StatesReset(calls, before, mid)
    requires after == if more != [] && more[0].ok then mid[more[0].name := Unknown] else mid
    ensures StatesReset(calls + more, before, after)
  {
    forall n ensures Lookup(after, n) == StateAfter(calls + more, before, n) {
      assert Lookup(mid, n) == StateAfter(calls, before, n);
      assert more != [] ==> more[0] in calls + more;
    }
  }

  lemma ClosureOfMore(g: Graph, roots: seq<string>, i: nat)
    requires i < |roots|
    ensures forall n :: InSomeClosure(g, roots[..i + 1], n) <==>
      InSomeClosure(g, roots[..i], n) || (Sortable(g, roots[i]) && Reaches(g, roots[i], n))
  {}

  lemma SortedNamesResolve(g: Graph, target: string, names: seq<string>)
    requires Sortable(g, target) && IsStartOrder(g, target, names)
    ensures forall n :: n in names ==> n in g
  {}
}
