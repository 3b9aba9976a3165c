/** gateway/scheduler.go: keeping the registered cron jobs in step with the configuration. */
module CronJobs {
  import opened Wrappers
  import opened Config
  import opened Schedule

  datatype Direction = StartJob | StopJob

  /** A registered job: the container, what it does, and the expression it was registered with. */
  datatype Job = Job(name: string, direction: Direction, spec: string)

  /** The two library calls the registration depends on. */
  datatype Library = Library(parse: Parser, locate: string -> Option<Location>)

  /** The registrations of the cron and the ids the manager remembers, by container. */
  datatype Registry = Registry(live: map<int, Job>, lastId: int, entries: map<string, seq<int>>)

  function Effective(lib: Library, c: ContainerConfig, loc: Location): Location {
    if c.scheduleTimezone != "" && lib.locate(c.scheduleTimezone).Some? then lib.locate(c.scheduleTimezone).value
    else loc
  }

  predicate Registers(lib: Library, expr: string, loc: Location) {
    expr != "" && lib.parse(CronExprFromLoc(expr, loc)).Some?
  }

  predicate Scheduled(c: ContainerConfig) { c.scheduleStart != "" || c.scheduleStop != "" }

  /** The job registered for one expression; none when it is not given or does not parse. */
  function GivenJobs(lib: Library, name: string, direction: Direction, expr: string, l: Location): seq<Job> {
    if Registers(lib, expr, l) then [Job(name, direction, CronExprFromLoc(expr, l))] else []
  }

  /** The jobs actually handed to the cron: none after a failed start, no stop when it does not parse. */
  function JobsAt(lib: Library, c: ContainerConfig, l: Location): seq<Job> {
    if c.scheduleStart != "" && !Registers(lib, c.scheduleStart, l) then []
    else
      GivenJobs(lib, c.name, StartJob, c.scheduleStart, l) + GivenJobs(lib, c.name, StopJob, c.scheduleStop, l)
  }

  function JobsOf(lib: Library, c: ContainerConfig, loc: Location): seq<Job> {
    JobsAt(lib, c, Effective(lib, c, loc))
  }

  /** Every given expression registers, so the ids are remembered. */
  predicate CompleteAt(lib: Library, c: ContainerConfig, l: Location) {
    (c.scheduleStart != "" ==> Registers(lib, c.scheduleStart, l))
    && (c.scheduleStop != "" ==> Registers(lib, c.scheduleStop, l))
  }

  predicate Complete(lib: Library, c: ContainerConfig, loc: Location) {
    CompleteAt(lib, c, Effective(lib, c, loc))
  }

  function IdsAfter(lastId: int, n: nat): seq<int> {
    if n == 0 then [] else IdsAfter(lastId, n - 1) + [lastId + n]
  }

  function AddJobs(live: map<int, Job>, lastId: int, jobs: seq<Job>): map<int, Job> {
    if jobs == [] then live
    else AddJobs(live, lastId, jobs[..|jobs| - 1])[lastId + |jobs| := jobs[|jobs| - 1]]
  }

  function RegisterOne(lib: Library, r: Registry, c: ContainerConfig, loc: Location): Registry {
    if !Scheduled(c) then r
    else
      var jobs := JobsOf(lib, c, loc);
      Registry(AddJobs(r.live, r.lastId, jobs), r.lastId + |jobs|,
               if Complete(lib, c, loc) then r.entries[c.name := IdsAfter(r.lastId, |jobs|)] else r.entries)
  }

  function RegisterAll(lib: Library, r: Registry, cs: seq<ContainerConfig>, loc: Location): Registry {
    if cs == [] then r
    else RegisterOne(lib, RegisterAll(lib, r, cs[..|cs| - 1], loc), cs[|cs| - 1], loc)
  }

  predicate Holds(entries: map<string, seq<int>>, n: string, id: int) {
    n in entries && id in entries[n]
  }

  predicate Remembered(entries: map<string, seq<int>>, id: int) {
    exists n | n in entries :: Holds(entries, n, id)
  }

  /** Jobs the manager no longer knows how to remove. */
  function Orphans(r: Registry): set<int> {
    set id | id in r.live && !Remembered(r.entries, id)
  }

  function Cleared(r: Registry): Registry {
    Registry(map id | id in r.live && !Remembered(r.entries, id) :: r.live[id], r.lastId, map[])
  }

  /** One Sync as a function of the registry. */
  function Synced(lib: Library, r: Registry, cs: seq<ContainerConfig>, loc: Location): Registry {
    RegisterAll(lib, Cleared(r), cs, loc)
  }

  // ---------------------------------------------------------------- the imperative form

  class Cron {
    const parse: Parser
    var live: map<int, Job>
    var lastId: int

    constructor (parse: Parser)
      ensures this.parse == parse && live == map[] && lastId == 0
    {
      this.parse := parse;
      live, lastId := map[], 0;
    }

    method AddFunc(job: Job) returns (id: Option<int>)
      modifies this
      ensures id.None? <==> parse(job.spec).None?
      ensures id.None? ==> live == old(live) && lastId == old(lastId)
      ensures id.Some? ==> id.value == lastId == old(lastId) + 1 && live == old(live)[id.value := job]
    {
      if parse(job.spec).None? {
        return None;
      }
      lastId := lastId + 1;
      live := live[lastId := job];
      return Some(lastId);
    }

    method Remove(id: int)
      modifies `live
      ensures live == old(live) - {id}
    {
      live := live - {id};
    }
  }

  class ScheduleManager {
    const cron: Cron
    const locate: string -> Option<Location>
    var entries: map<string, seq<int>>

    constructor (cron: Cron, locate: string -> Option<Location>)
      ensures this.cron == cron && this.locate == locate && entries == map[]
    {
      this.cron, this.locate := cron, locate;
      entries := map[];
    }

    function State(): Registry
      reads this, cron
    {
      Registry(cron.live, cron.lastId, entries)
    }

    function Lib(): Library { Library(cron.parse, locate) }

    /** Removes what is remembered, in whatever order the map is iterated. */
    method RemoveAll()
      modifies this, cron`live
      ensures State() == Cleared(old(State()))
    {
      var todo := entries.Keys;
      ghost var was := entries;
      while todo != {}
        invariant todo <= was.Keys && entries.Keys == todo && cron.lastId == old(cron.lastId)
        invariant forall n :: n in todo ==> entries[n] == was[n]
        invariant forall id :: id in cron.live <==> id in old(cron.live) && !Remembered(was - todo, id)
        invariant forall id :: id in cron.live ==> cron.live[id] == old(cron.live)[id]
      {
        var name :| name in todo;
        var ids := entries[name];
        ghost var before := cron.live;
        for i := 0 to |ids|
          invariant cron.live == before - set k | 0 <= k < i :: ids[k]
          modifies cron`live
        {
          cron.Remove(ids[i]);
        }
        ForgetOne(was, todo, name);
        entries := entries - {name};
        todo := todo - {name};
      }
      assert was - todo == was && entries == map[];
      ghost var cleared := Cleared(old(State())).live;
      assert forall id :: id in cron.live <==> id in cleared;
      assert forall id :: id in cleared ==> cron.live[id] == cleared[id];
    }

    /** Registers one expression if it is given. */
    method AddGiven(name: string, direction: Direction, expr: string, l: Location) returns (ids: seq<int>, ok: bool)
      modifies cron
      ensures ok <==> (expr != "" ==> Registers(Lib(), expr, l))
      ensures var jobs := GivenJobs(Lib(), name, direction, expr, l);
              && cron.live == AddJobs(old(cron.live), old(cron.lastId), jobs)
              && cron.lastId == old(cron.lastId) + |jobs|
              && (ok ==> ids == IdsAfter(old(cron.lastId), |jobs|))
    {
      if expr == "" {
        return [], true;
      }
      var job := Job(name, direction, CronExprFromLoc(expr, l));
      AddJobsMore(cron.live, cron.lastId, [], job);
      var id := cron.AddFunc(job);
      if id.None? {
        return [], false;
      }
      return [id.value], true;
    }

    /** Hands the jobs of one container to the cron; `ids` are its registrations when all succeeded. */
    method AddJobsAt(c: ContainerConfig, l: Location) returns (ids: seq<int>, complete: bool)
      modifies cron
      ensures cron.live == AddJobs(old(cron.live), old(cron.lastId), JobsAt(Lib(), c, l))
      ensures cron.lastId == old(cron.lastId) + |JobsAt(Lib(), c, l)|
      ensures complete <==> CompleteAt(Lib(), c, l)
      ensures complete ==> ids == IdsAfter(old(cron.lastId), |JobsAt(Lib(), c, l)|)
      ensures complete && Scheduled(c) ==> JobsAt(Lib(), c, l) != []
    {
      ghost var live0, base := cron.live, cron.lastId;
      assert AddJobs(live0, base, []) == live0;
      hide AddJobs, IdsAfter, CronExprFromLoc;
      var starts, ok := AddGiven(c.name, StartJob, c.scheduleStart, l);
      if !ok {
        return [], false;
      }
      var stops;
      stops, complete := AddGiven(c.name, StopJob, c.scheduleStop, l);
      GivenJoin(Lib(), c, l, live0, base);
      hide GivenJobs, JobsAt, Registers;
      ids := starts + stops;
    }

    /** One iteration of Sync. */
    method Register(c: ContainerConfig, loc: Location)
      modifies this, cron
      ensures State() == RegisterOne(Lib(), old(State()), c, loc)
    {
      if c.scheduleStart == "" && c.scheduleStop == "" {
        return;
      }
      hide JobsAt, CompleteAt, AddJobs, IdsAfter;
      var effectiveLoc := loc;
      if c.scheduleTimezone != "" {
        var l := locate(c.scheduleTimezone);
        if l.Some? {
          effectiveLoc := l.value;
        }
      }
      var ids, complete := AddJobsAt(c, effectiveLoc);
      if complete {
        IdsAfterMembers(old(cron.lastId), |JobsAt(Lib(), c, effectiveLoc)|);
        if |ids| > 0 {
          entries := entries[c.name := ids];
        }
      }
    }

    method Sync(containers: seq<ContainerConfig>, loc: Location)
      modifies this, cron
      ensures State() == Synced(Lib(), old(State()), containers, loc)
    {
      RemoveAll();
      ghost var cleared := State();
      for i := 0 to |containers|
        invariant State() == RegisterAll(Lib(), cleared, containers[..i], loc)
      {
        assert containers[..i + 1][..i] == containers[..i];
        Register(containers[i], loc);
      }
      assert containers[..|containers|] == containers;
    }
  }

  /** Registering the start and then the stop registers the jobs of the container. */
  lemma GivenJoin(lib: Library, c: ContainerConfig, l: Location, live: map<int, Job>, lastId: int)
    requires c.scheduleStart != "" ==> Registers(lib, c.scheduleStart, l)
    ensures
      var a := GivenJobs(lib, c.name, StartJob, c.scheduleStart, l);
      var b := GivenJobs(lib, c.name, StopJob, c.scheduleStop, l);
      && AddJobs(AddJobs(live, lastId, a), lastId + |a|, b) == AddJobs(live, lastId, JobsAt(lib, c, l))
      && IdsAfter(lastId, |a|) + IdsAfter(lastId + |a|, |b|) == IdsAfter(lastId, |JobsAt(lib, c, l)|)
      && |a| + |b| == |JobsAt(lib, c, l)|
      && (CompleteAt(lib, c, l) && Scheduled(c) ==> JobsAt(lib, c, l) != [])
  {
    hide AddJobs, IdsAfter, CronExprFromLoc;
    var a := GivenJobs(lib, c.name, StartJob, c.scheduleStart, l);
    var b := GivenJobs(lib, c.name, StopJob, c.scheduleStop, l);
    AddJobsJoin(live, lastId, a, b);
    IdsJoin(lastId, |a|, |b|);
  }

  lemma {:induction false} IdsJoin(lastId: int, n: nat, m: nat)
    ensures IdsAfter(lastId, n) + IdsAfter(lastId + n, m) == IdsAfter(lastId, n + m)
  {
    if m > 0 { IdsJoin(lastId, n, m - 1); }
  }

  lemma AddJobsMore(live: map<int, Job>, lastId: int, jobs: seq<Job>, job: Job)
    ensures AddJobs(live, lastId, jobs + [job]) == AddJobs(live, lastId, jobs)[lastId + |jobs| + 1 := job]
  {}

  lemma ForgetOne(entries: map<string, seq<int>>, todo: set<string>, name: string)
    requires name in todo && todo <= entries.Keys
    ensures forall id :: Remembered(entries - (todo - {name}), id) <==>
            Remembered(entries - todo, id) || id in entries[name]
  {
    forall id
      ensures Remembered(entries - (todo - {name}), id) <==> Remembered(entries - todo, id) || id in entries[name]
    {
      var less, more := entries - todo, entries - (todo - {name});
      if Remembered(less, id) {
        var n :| n in less && Holds(less, n, id);
        assert Holds(more, n, id);
      }
      if Remembered(more, id) {
        var n :| n in more && Holds(more, n, id);
        if n != name { assert Holds(less, n, id); }
      }
      if id in entries[name] { assert Holds(more, name, id); }
    }
  }

  // ---------------------------------------------------------------- what every history of Syncs keeps

  /** Remembered ids are live, recent and remembered under one name only. */
  ghost predicate Coherent(r: Registry) {
    && (forall id :: id in r.live ==> id <= r.lastId)
    && (forall n, id :: Holds(r.entries, n, id) ==> id in r.live)
    && (forall n, m, id :: Holds(r.entries, n, id) && Holds(r.entries, m, id) ==> n == m)
    && (forall n :: n in r.entries ==> r.entries[n] != [])
  }

  lemma {:induction false} IdsAfterMembers(lastId: int, n: nat)
    ensures |IdsAfter(lastId, n)| == n
    ensures forall id :: id in IdsAfter(lastId, n) <==> lastId < id <= lastId + n
  {
    if n > 0 { IdsAfterMembers(lastId, n - 1); }
  }

  lemma {:induction false} AddJobsContents(live: map<int, Job>, lastId: int, jobs: seq<Job>)
    ensures forall id :: id in AddJobs(live, lastId, jobs) <==> id in live || lastId < id <= lastId + |jobs|
    ensures forall i :: 0 <= i < |jobs| ==> AddJobs(live, lastId, jobs)[lastId + 1 + i] == jobs[i]
    ensures forall id :: id in live && !(lastId < id <= lastId + |jobs|) ==> AddJobs(live, lastId, jobs)[id] == live[id]
  {
    if jobs != [] { AddJobsContents(live, lastId, jobs[..|jobs| - 1]); }
  }

  predicate Recorded(lib: Library, c: ContainerConfig, loc: Location) {
    Scheduled(c) && Complete(lib, c, loc)
  }

  /** Its start registered, its stop did not: the start id is dropped on the floor. */
  predicate HalfRegistered(lib: Library, c: ContainerConfig, loc: Location) {
    Scheduled(c) && !Complete(lib, c, loc) && JobsOf(lib, c, loc) != []
  }

  lemma HalfRegisteredIff(lib: Library, c: ContainerConfig, loc: Location)
    ensures HalfRegistered(lib, c, loc) <==>
            Registers(lib, c.scheduleStart, Effective(lib, c, loc))
            && c.scheduleStop != "" && !Registers(lib, c.scheduleStop, Effective(lib, c, loc))
  {}

  /** Nothing in the list makes the manager forget a job it registered. */
  predicate Tidy(lib: Library, cs: seq<ContainerConfig>, loc: Location) {
    && (forall i :: 0 <= i < |cs| ==> !HalfRegistered(lib, cs[i], loc))
    && (forall i, j :: 0 <= i < j < |cs| && Recorded(lib, cs[i], loc) && Recorded(lib, cs[j], loc) ==>
          cs[i].name != cs[j].name)
  }

  lemma RegisterOneKeeps(lib: Library, r: Registry, c: ContainerConfig, loc: Location)
    requires Coherent(r)
    ensures Coherent(RegisterOne(lib, r, c, loc))
    ensures Orphans(r) <= Orphans(RegisterOne(lib, r, c, loc))
    ensures Orphans(r) == Orphans(RegisterOne(lib, r, c, loc)) <==>
            !HalfRegistered(lib, c, loc) && !(Recorded(lib, c, loc) && c.name in r.entries)
  {
    if Scheduled(c) {
      var jobs, s := JobsOf(lib, c, loc), RegisterOne(lib, r, c, loc);
      AddJobsContents(r.live, r.lastId, jobs);
      IdsAfterMembers(r.lastId, |jobs|);
      if Complete(lib, c, loc) {
        assert jobs != [];
        RecordKeeps(r, s, c.name, jobs);
      } else {
        forall id ensures id in Orphans(s) <==> id in Orphans(r) || r.lastId < id <= r.lastId + |jobs| {
          assert Remembered(s.entries, id) <==> Remembered(r.entries, id);
          if Remembered(r.entries, id) {
            var n :| n in r.entries && Holds(r.entries, n, id);
            assert id <= r.lastId;
          }
        }
        if jobs != [] { assert r.lastId + 1 in Orphans(s) && r.lastId + 1 !in Orphans(r); }
      }
    }
  }

  lemma RecordCoherent(r: Registry, s: Registry, name: string, jobs: seq<Job>)
    requires Coherent(r) && jobs != []
    requires s == Registry(AddJobs(r.live, r.lastId, jobs), r.lastId + |jobs|,
                           r.entries[name := IdsAfter(r.lastId, |jobs|)])
    ensures Coherent(s)
  {
    AddJobsContents(r.live, r.lastId, jobs);
    IdsAfterMembers(r.lastId, |jobs|);
    forall n, id | Holds(s.entries, n, id)
      ensures id in s.live && (n != name ==> id <= r.lastId) && (n == name ==> id > r.lastId)
    {
      if n != name { assert Holds(r.entries, n, id); }
    }
    forall n, m, id | Holds(s.entries, n, id) && Holds(s.entries, m, id) ensures n == m {
      if n != name && m != name { assert Holds(r.entries, n, id) && Holds(r.entries, m, id); }
    }
  }

  lemma RecordKeeps(r: Registry, s: Registry, name: string, jobs: seq<Job>)
    requires Coherent(r) && jobs != []
    requires s == Registry(AddJobs(r.live, r.lastId, jobs), r.lastId + |jobs|,
                           r.entries[name := IdsAfter(r.lastId, |jobs|)])
    ensures Coherent(s)
    ensures Orphans(r) <= Orphans(s)
    ensures Orphans(r) == Orphans(s) <==> name !in r.entries
  {
    AddJobsContents(r.live, r.lastId, jobs);
    IdsAfterMembers(r.lastId, |jobs|);
    RecordCoherent(r, s, name, jobs);
    var ids := IdsAfter(r.lastId, |jobs|);
    forall id ensures Remembered(s.entries, id) <==>
        id in ids || (Remembered(r.entries, id) && !(Holds(r.entries, name, id)))
    {
      if id in ids { assert Holds(s.entries, name, id); }
      if Remembered(r.entries, id) {
        var n :| n in r.entries && Holds(r.entries, n, id);
        if n != name { assert Holds(s.entries, n, id); }
      }
      if Remembered(s.entries, id) {
        var n :| n in s.entries && Holds(s.entries, n, id);
        if n != name { assert Holds(r.entries, n, id); }
      }
    }
    if name in r.entries {
      var id := r.entries[name][0];
      assert Holds(r.entries, name, id) && id !in ids;
      assert id in Orphans(s) && id !in Orphans(r);
    }
  }

  lemma {:induction false} EntriesAre(lib: Library, r: Registry, cs: seq<ContainerConfig>, loc: Location, n: string)
    requires r.entries == map[]
    ensures n in RegisterAll(lib, r, cs, loc).entries <==>
            exists i :: 0 <= i < |cs| && Recorded(lib, cs[i], loc) && cs[i].name == n
  {
    if cs != [] {
      var rest := cs[..|cs| - 1];
      EntriesAre(lib, r, rest, loc, n);
      if Recorded(lib, cs[|cs| - 1], loc) && cs[|cs| - 1].name == n {
      } else {
        assert (exists i :: 0 <= i < |cs| && Recorded(lib, cs[i], loc) && cs[i].name == n) <==>
               (exists i :: 0 <= i < |rest| && Recorded(lib, rest[i], loc) && rest[i].name == n);
      }
    }
  }

  /** Registering a list from a cleared registry loses track of a job exactly when the list is not tidy. */
  lemma {:induction false} RegisterAllLeaksIff(lib: Library, r: Registry, cs: seq<ContainerConfig>, loc: Location)
    requires r.entries == map[] && Coherent(r)
    ensures Coherent(RegisterAll(lib, r, cs, loc))
    ensures Orphans(r) <= Orphans(RegisterAll(lib, r, cs, loc))
    ensures Orphans(r) == Orphans(RegisterAll(lib, r, cs, loc)) <==> Tidy(lib, cs, loc)
  {
    if cs != [] {
      var k := |cs| - 1;
      var rest, c := cs[..k], cs[k];
      var mid := RegisterAll(lib, r, rest, loc);
      RegisterAllLeaksIff(lib, r, rest, loc);
      RegisterOneKeeps(lib, mid, c, loc);
      EntriesAre(lib, r, rest, loc, c.name);
      TidyExtends(lib, cs, loc);
    }
  }

  lemma TidyExtends(lib: Library, cs: seq<ContainerConfig>, loc: Location)
    requires cs != []
    ensures
      var rest, c := cs[..|cs| - 1], cs[|cs| - 1];
      Tidy(lib, cs, loc) <==> (
        Tidy(lib, rest, loc) && !HalfRegistered(lib, c, loc)
        && !(Recorded(lib, c, loc)
             && exists i :: 0 <= i < |rest| && Recorded(lib, rest[i], loc) && rest[i].name == c.name))
  {
    hide HalfRegistered, Recorded;
    var k := |cs| - 1;
    var rest := cs[..k];
    assert forall i :: 0 <= i < k ==> rest[i] == cs[i];
    if Tidy(lib, cs, loc) {
      forall i | 0 <= i < |rest| ensures !HalfRegistered(lib, rest[i], loc) { assert !HalfRegistered(lib, cs[i], loc); }
    }
  }

  lemma ClearedKeepsOrphans(r: Registry)
    requires Coherent(r)
    ensures Coherent(Cleared(r)) && Orphans(Cleared(r)) == Orphans(r)
  {}

  /** One Sync never forgets an orphan, and makes a new one exactly when the list is not tidy. */
  lemma SyncLeaksIff(lib: Library, r: Registry, cs: seq<ContainerConfig>, loc: Location)
    requires Coherent(r)
    ensures Coherent(Synced(lib, r, cs, loc))
    ensures Orphans(r) <= Orphans(Synced(lib, r, cs, loc))
    ensures Orphans(r) == Orphans(Synced(lib, r, cs, loc)) <==> Tidy(lib, cs, loc)
  {
    ClearedKeepsOrphans(r);
    RegisterAllLeaksIff(lib, Cleared(r), cs, loc);
  }

  // ---------------------------------------------------------------- the jobs of the last Sync

  function AllJobs(lib: Library, cs: seq<ContainerConfig>, loc: Location): seq<Job> {
    if cs == [] then []
    else
      var c := cs[|cs| - 1];
      AllJobs(lib, cs[..|cs| - 1], loc) + if Scheduled(c) then JobsOf(lib, c, loc) else []
  }

  /** `j` starts or stops `c` by the expression declared for that, in the zone of the container. */
  predicate IsJobOf(lib: Library, c: ContainerConfig, loc: Location, j: Job) {
    var expr := if j.direction == StartJob then c.scheduleStart else c.scheduleStop;
    j.name == c.name && expr != "" && j.spec == CronExprFromLoc(expr, Effective(lib, c, loc))
  }

  lemma JobsOfOne(lib: Library, c: ContainerConfig, loc: Location, j: Job)
    requires Complete(lib, c, loc)
    ensures IsJobOf(lib, c, loc, j) <==> Scheduled(c) && j in JobsOf(lib, c, loc)
  {}

  /** When every expression parses, the jobs are exactly the declared starts and stops. */
  lemma {:induction false} JobsAreDeclared(lib: Library, cs: seq<ContainerConfig>, loc: Location, j: Job)
    requires forall c :: c in cs ==> Complete(lib, c, loc)
    ensures j in AllJobs(lib, cs, loc) <==> exists c :: c in cs && IsJobOf(lib, c, loc, j)
  {
    if cs != [] {
      var rest, c := cs[..|cs| - 1], cs[|cs| - 1];
      JobsAreDeclared(lib, rest, loc, j);
      assert cs == rest + [c];
      JobsOfOne(lib, c, loc, j);
    }
  }

  lemma {:induction false} AddJobsJoin(live: map<int, Job>, lastId: int, a: seq<Job>, b: seq<Job>)
    ensures AddJobs(AddJobs(live, lastId, a), lastId + |a|, b) == AddJobs(live, lastId, a + b)
  {
    if b == [] {
      assert a + b == a;
    } else {
      var last := b[|b| - 1];
      AddJobsJoin(live, lastId, a, b[..|b| - 1]);
      assert a + b == (a + b[..|b| - 1]) + [last];
      AddJobsMore(live, lastId, a + b[..|b| - 1], last);
    }
  }

  lemma {:induction false} RegisterAllJobs(lib: Library, r: Registry, cs: seq<ContainerConfig>, loc: Location)
    ensures RegisterAll(lib, r, cs, loc).live == AddJobs(r.live, r.lastId, AllJobs(lib, cs, loc))
    ensures RegisterAll(lib, r, cs, loc).lastId == r.lastId + |AllJobs(lib, cs, loc)|
  {
    if cs != [] {
      var rest, c := cs[..|cs| - 1], cs[|cs| - 1];
      RegisterAllJobs(lib, r, rest, loc);
      if Scheduled(c) {
        AddJobsJoin(r.live, r.lastId, AllJobs(lib, rest, loc), JobsOf(lib, c, loc));
      } else {
        assert AllJobs(lib, rest, loc) + [] == AllJobs(lib, rest, loc);
      }
    }
  }

  /** A list and global location handed to Sync. */
  datatype Request = Request(containers: seq<ContainerConfig>, loc: Location)

  function History(lib: Library, r: Registry, requests: seq<Request>): Registry {
    if requests == [] then r
    else
      var last := requests[|requests| - 1];
      Synced(lib, History(lib, r, requests[..|requests| - 1]), last.containers, last.loc)
  }

  const EMPTY := Registry(map[], 0, map[])

  lemma {:induction false} HistoryStaysClean(lib: Library, requests: seq<Request>)
    requires forall q :: q in requests ==> Tidy(lib, q.containers, q.loc)
    ensures Coherent(History(lib, EMPTY, requests))
    ensures Orphans(History(lib, EMPTY, requests)) == {}
  {
    if requests == [] {
    } else {
      var rest, last := requests[..|requests| - 1], requests[|requests| - 1];
      HistoryStaysClean(lib, rest);
      var before := History(lib, EMPTY, rest);
      SyncLeaksIff(lib, before, last.containers, last.loc);
    }
  }

  /** After any history of tidy Syncs nothing is leaked and the live jobs, in id order, are a function
      of the last list and location alone. */
  lemma LiveJobsAreThoseOfTheLastSync(lib: Library, requests: seq<Request>, last: Request)
    requires forall q :: q in requests ==> Tidy(lib, q.containers, q.loc)
    requires Tidy(lib, last.containers, last.loc)
    ensures
      var before, after := History(lib, EMPTY, requests), History(lib, EMPTY, requests + [last]);
      var jobs := AllJobs(lib, last.containers, last.loc);
      && after.live == AddJobs(map[], before.lastId, jobs)
      && forall id :: id in after.live <==> Remembered(after.entries, id)
  {
    var before := History(lib, EMPTY, requests);
    assert (requests + [last])[..|requests|] == requests;
    HistoryStaysClean(lib, requests);
    HistoryStaysClean(lib, requests + [last]);
    var after := History(lib, EMPTY, requests + [last]);
    RegisterAllJobs(lib, Cleared(before), last.containers, last.loc);
    assert Cleared(before).live == map[] by {
      forall id | id in before.live ensures Remembered(before.entries, id) { assert id !in Orphans(before); }
    }
    forall id ensures id in after.live <==> Remembered(after.entries, id) {
      if id in after.live { assert id !in Orphans(after); }
    }
  }

  /** Distinct names and parseable expressions, as a validated configuration has them, are tidy. */
  lemma ParseableIsTidy(lib: Library, cs: seq<ContainerConfig>, loc: Location)
    requires forall i, j :: 0 <= i < j < |cs| ==> cs[i].name != cs[j].name
    requires forall c :: c in cs ==> Complete(lib, c, loc)
    ensures Tidy(lib, cs, loc)
  {}

  // ---------------------------------------------------------------- the registered expressions

  /** A container that names its zone has its start and stop registered under that zone. */
  lemma ZoneIsWrittenOut(lib: Library, c: ContainerConfig, loc: Location, zone: string)
    requires c.scheduleTimezone == zone && zone != "" && lib.locate(zone) == Some(Zone(zone))
    requires c.scheduleStart != "" && lib.parse("CRON_TZ=" + zone + " " + c.scheduleStart).Some?
    requires c.scheduleStop != "" && lib.parse("CRON_TZ=" + zone + " " + c.scheduleStop).Some?
    ensures JobsOf(lib, c, loc) == [Job(c.name, StartJob, "CRON_TZ=" + zone + " " + c.scheduleStart),
                                    Job(c.name, StopJob, "CRON_TZ=" + zone + " " + c.scheduleStop)]
  {}

  /** One that names none follows the global zone, and the process's own zone is left out. */
  lemma GlobalZoneIsDefault(lib: Library, c: ContainerConfig, zone: string)
    requires c.scheduleTimezone == "" && c.scheduleStart != "" && c.scheduleStop == ""
    requires lib.parse("CRON_TZ=" + zone + " " + c.scheduleStart).Some? && lib.parse(c.scheduleStart).Some?
    ensures JobsOf(lib, c, Zone(zone)) == [Job(c.name, StartJob, "CRON_TZ=" + zone + " " + c.scheduleStart)]
    ensures JobsOf(lib, c, Local) == [Job(c.name, StartJob, c.scheduleStart)]
    ensures JobsOf(lib, c, NilLocation) == [Job(c.name, StartJob, c.scheduleStart)]
  {}
}
