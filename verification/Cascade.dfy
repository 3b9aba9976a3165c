/** What one idle pass does to a quiet world, as a value, and what follows from it. */
module Cascade {
  import opened Config
  import opened DependencyGraph
  import opened Docker
  import opened TopoSort

  /** The reverse index also sees entries shadowed by a later one of the same name. */
  ghost predicate Declares(cfgs: seq<ContainerConfig>, dependent: string, dep: string) {
    exists c :: c in cfgs && c.name == dependent && dep in c.dependsOn
  }

  ghost predicate DistinctNames(cfgs: seq<ContainerConfig>) {
    forall i, j :: 0 <= i < j < |cfgs| ==> cfgs[i].name != cfgs[j].name
  }

  /** The union of the closures of the entry points that can be sorted. */
  ghost function StopSet(cfgs: seq<ContainerConfig>, entryPoints: seq<string>): set<string> {
    var g := Deps(cfgs);
    set n | n in g.Keys && InSomeClosure(g, entryPoints, n)
  }

  ghost predicate InSomeClosure(g: Graph, entryPoints: seq<string>, n: string) {
    exists ep :: ep in entryPoints && Sortable(g, ep) && Reaches(g, ep, n)
  }

  /** A running container outside the shutdown set still depends on `n`. */
  ghost predicate Needed(w: World, cfgs: seq<ContainerConfig>, toStop: set<string>, n: string) {
    exists d :: Declares(cfgs, d, n) && d !in toStop && IsRunning(w, d)
  }

  ghost predicate Stopped(w: World, cfgs: seq<ContainerConfig>, toStop: set<string>, n: string) {
    n in toStop && IsRunning(w, n) && !Needed(w, cfgs, toStop, n)
  }

  // ---------------------------------------------------------------- traces of stop requests

  ghost predicate Requested(calls: seq<Call>, n: string) { exists c :: c in calls && c.name == n }

  ghost predicate Succeeded(calls: seq<Call>, n: string) { exists c :: c in calls && c.name == n && c.ok }

  ghost predicate Refused(calls: seq<Call>, n: string) { Requested(calls, n) && !Succeeded(calls, n) }

  ghost predicate AllSucceed(calls: seq<Call>) {
    forall c :: c in calls ==> c.ok
  }

  /** The world in which exactly the successful requests of the trace took effect. */
  ghost function Downed(w: World, calls: seq<Call>): World {
    map n | n in w :: if Succeeded(calls, n) then Exited else w[n]
  }

  /** Stop requests go to distinct members of the set; on an acyclic configuration no request
      follows one for its own dependency. */
  ghost predicate OrderlyStops(cfgs: seq<ContainerConfig>, toStop: set<string>, calls: seq<Call>) {
    && (forall c :: c in calls ==> c.name in toStop)
    && (forall i, j :: 0 <= i < j < |calls| ==> calls[i].name != calls[j].name)
    && (Acyclic(Deps(cfgs)) ==> forall i, j :: 0 <= i < j < |calls| ==> !Edge(Deps(cfgs), calls[j].name, calls[i].name))
  }

  /** The outcome of an undisturbed pass, whichever requests fail: requested are exactly the running
      members no running outsider needs, and each request, like the end of the pass, sees the first
      world with exactly the successful requests so far carried out. */
  ghost predicate QuietPass(w0: World, cfgs: seq<ContainerConfig>, toStop: set<string>, calls: seq<Call>, w: World) {
    && OrderlyStops(cfgs, toStop, calls)
    && (forall n :: Requested(calls, n) <==> Stopped(w0, cfgs, toStop, n))
    && (forall i :: 0 <= i < |calls| ==> calls[i].at == Downed(w0, calls[..i]))
    && w == Downed(w0, calls)
  }

  lemma StopSetClosed(cfgs: seq<ContainerConfig>, entryPoints: seq<string>)
    ensures Closed(Deps(cfgs), StopSet(cfgs, entryPoints))
  {
    var g := Deps(cfgs);
    var s := StopSet(cfgs, entryPoints);
    forall a, b | a in s && Edge(g, a, b) ensures b in s {
      var ep :| ep in entryPoints && Sortable(g, ep) && Reaches(g, ep, a);
      EdgeReaches(g, a, b);
      ReachesTrans(g, ep, a, b);
      assert InSomeClosure(g, entryPoints, b);
    }
  }

  // ---------------------------------------------------------------- what a quiet pass guarantees

  /** Requests for other members leave the verdict on `n` alone. */
  lemma VerdictUnchanged(w0: World, cfgs: seq<ContainerConfig>, toStop: set<string>, calls: seq<Call>, n: string)
    requires forall c :: c in calls ==> c.name in toStop && c.name != n
    ensures Stopped(Downed(w0, calls), cfgs, toStop, n) <==> Stopped(w0, cfgs, toStop, n)
  {}

  /** At each request the container still ran, and no running outsider depended on it. */
  lemma StopsAreJustified(w0: World, cfgs: seq<ContainerConfig>, toStop: set<string>, calls: seq<Call>, w: World,
                          i: nat)
    requires QuietPass(w0, cfgs, toStop, calls, w) && i < |calls|
    ensures Stopped(calls[i].at, cfgs, toStop, calls[i].name)
  {
    assert Requested(calls, calls[i].name);
    VerdictUnchanged(w0, cfgs, toStop, calls[..i], calls[i].name);
  }

  /** Whichever stops fail and whatever is kept: at every moment of the pass a running container
      outside the set runs on with every direct dependency as it was. */
  lemma OutsidersKeepDependencies(w0: World, cfgs: seq<ContainerConfig>, toStop: set<string>, calls: seq<Call>,
                                  w: World, i: nat, x: string, d: string)
    requires QuietPass(w0, cfgs, toStop, calls, w) && i <= |calls|
    requires x !in toStop && IsRunning(w0, x) && Declares(cfgs, x, d)
    ensures IsRunning(Downed(w0, calls[..i]), x) && Lookup(Downed(w0, calls[..i]), d) == Lookup(w0, d)
    ensures IsRunning(w, x) && Lookup(w, d) == Lookup(w0, d)
  {
    forall n | Succeeded(calls[..i], n) || Succeeded(calls, n) ensures Stopped(w0, cfgs, toStop, n) {
      assert Requested(calls, n);
    }
  }

  /** `c` still runs while its direct dependency `d` was taken down. */
  ghost predicate LosesDependency(w0: World, w: World, cfgs: seq<ContainerConfig>, c: string, d: string) {
    Declares(cfgs, c, d) && IsRunning(w, c) && IsRunning(w0, d) && !IsRunning(w, d)
  }

  /** A running container loses a direct dependency exactly when the stop of the dependency succeeds
      and the container was kept for an outsider or its own stop failed. */
  lemma DependencyLostIff(w0: World, cfgs: seq<ContainerConfig>, toStop: set<string>, calls: seq<Call>, w: World,
                          c: string, d: string)
    requires QuietPass(w0, cfgs, toStop, calls, w)
    ensures LosesDependency(w0, w, cfgs, c, d) <==>
            && Declares(cfgs, c, d) && Succeeded(calls, d)
            && IsRunning(w0, c) && (Needed(w0, cfgs, toStop, c) || Refused(calls, c))
  {
    assert Succeeded(calls, d) ==> Requested(calls, d);
    assert Succeeded(calls, c) ==> Requested(calls, c);
  }

  /** `k` is a member kept for an outside dependent although its own dependency `d` is not. */
  ghost predicate KeptAbove(w: World, cfgs: seq<ContainerConfig>, toStop: set<string>, k: string, d: string) {
    && k in toStop && IsRunning(w, k) && Needed(w, cfgs, toStop, k)
    && Declares(cfgs, k, d) && Stopped(w, cfgs, toStop, d)
  }

  /** When no stop fails this can be told beforehand: some member is kept for an outside dependent
      while one of its own running dependencies is not. */
  lemma DependencyLostExactlyBelowKept(w0: World, cfgs: seq<ContainerConfig>, toStop: set<string>, calls: seq<Call>,
                                       w: World, c: string, d: string)
    requires QuietPass(w0, cfgs, toStop, calls, w) && AllSucceed(calls)
    ensures LosesDependency(w0, w, cfgs, c, d) <==> KeptAbove(w0, cfgs, toStop, c, d)
  {
    DependencyLostIff(w0, cfgs, toStop, calls, w, c, d);
    assert Requested(calls, d) ==> Succeeded(calls, d);
  }

  /** The direct dependents running at a request are exactly the members kept for an outsider and
      those whose own stop failed. */
  lemma StopHasRunningDependentIff(w0: World, cfgs: seq<ContainerConfig>, toStop: set<string>, calls: seq<Call>,
                                   w: World, i: nat, d: string)
    requires QuietPass(w0, cfgs, toStop, calls, w) && Acyclic(Deps(cfgs)) && DistinctNames(cfgs)
    requires i < |calls| && Declares(cfgs, d, calls[i].name)
    ensures IsRunning(calls[i].at, d) <==>
            d in toStop && IsRunning(w0, d) && (Needed(w0, cfgs, toStop, d) || Refused(calls, d))
  {
    DependentsHadTheirTurn(cfgs, toStop, calls, i, d);
    assert Requested(calls, calls[i].name);
    assert Succeeded(calls, d) ==> Requested(calls, d);
    hide Succeeded, Acyclic, DistinctNames, OrderlyStops;
    assert IsRunning(calls[i].at, d) <==> IsRunning(w0, d) && !Succeeded(calls, d);
  }

  lemma DependentsHadTheirTurn(cfgs: seq<ContainerConfig>, toStop: set<string>, calls: seq<Call>, i: nat, d: string)
    requires OrderlyStops(cfgs, toStop, calls) && Acyclic(Deps(cfgs)) && DistinctNames(cfgs)
    requires i < |calls| && Declares(cfgs, d, calls[i].name)
    ensures Succeeded(calls[..i], d) <==> Succeeded(calls, d)
  {
    assert Edge(Deps(cfgs), d, calls[i].name);
    EdgeNotBack(cfgs, d, calls[i].name);
    if Succeeded(calls, d) {
      var j :| 0 <= j < |calls| && calls[j].name == d && calls[j].ok;
      assert j < i && calls[..i][j] == calls[j];
    }
  }

  lemma EdgeNotBack(cfgs: seq<ContainerConfig>, a: string, b: string)
    requires Acyclic(Deps(cfgs)) && Edge(Deps(cfgs), a, b)
    ensures a != b
  {
    ReachesSelf(Deps(cfgs), a);
    if a == b { EdgeBackIsCycle(Deps(cfgs), a, b); }
  }

  /** Without failures, every request of the pass finds its container without a running direct
      dependent exactly when no member is kept above one that is not. */
  lemma StopsOnlyUnusedIff(w0: World, cfgs: seq<ContainerConfig>, toStop: set<string>, calls: seq<Call>, w: World)
    requires QuietPass(w0, cfgs, toStop, calls, w) && AllSucceed(calls) && Acyclic(Deps(cfgs)) && DistinctNames(cfgs)
    ensures (forall i, d :: 0 <= i < |calls| && Declares(cfgs, d, calls[i].name) ==> !IsRunning(calls[i].at, d)) <==>
            (forall k, d :: !KeptAbove(w0, cfgs, toStop, k, d))
  {
    forall i, d | 0 <= i < |calls| && Declares(cfgs, d, calls[i].name)
      ensures IsRunning(calls[i].at, d) <==> KeptAbove(w0, cfgs, toStop, d, calls[i].name)
    {
      StopHasRunningDependentIff(w0, cfgs, toStop, calls, w, i, d);
      assert Requested(calls, calls[i].name);
    }
    forall k, d | KeptAbove(w0, cfgs, toStop, k, d)
      ensures exists i :: 0 <= i < |calls| && calls[i].name == d
    {
      assert Requested(calls, d);
    }
  }

  // ---------------------------------------------------------------- transitive dependencies

  ghost predicate LosesTransitively(w0: World, w: World, g: Graph, c: string, d: string) {
    Reaches(g, c, d) && IsRunning(w, c) && IsRunning(w0, d) && !IsRunning(w, d)
  }

  /** A container that runs on reaches `d` through `x`, which did not run in the first place. */
  ghost predicate DeadLink(w0: World, w: World, g: Graph, c: string, x: string, d: string) {
    && IsRunning(w, c) && Reaches(g, c, x) && !IsRunning(w0, x)
    && Edge(g, x, d) && IsRunning(w0, d) && !IsRunning(w, d)
  }

  /** `k` runs on and loses `d`, which it depends on directly. */
  ghost predicate LostLink(w0: World, w: World, g: Graph, k: string, d: string) {
    Edge(g, k, d) && IsRunning(w, k) && IsRunning(w0, d) && !IsRunning(w, d)
  }

  /** Somewhere on a path from a survivor to a container that is taken down, the fate changes. */
  lemma {:induction false} FateChangesOnPath(g: Graph, calls: seq<Call>, p: seq<string>) returns (k: nat)
    requires IsPath(g, p) && !Succeeded(calls, p[0]) && Succeeded(calls, p[|p| - 1])
    ensures k + 1 < |p| && !Succeeded(calls, p[k]) && Succeeded(calls, p[k + 1])
  {
    k := |p| - 2;
    if Succeeded(calls, p[k]) {
      SubPath(g, p, 0, k);
      k := FateChangesOnPath(g, calls, p[..k + 1]);
    }
  }

  /** Whichever stops fail: some container that runs on loses a transitive dependency exactly when one
      loses a direct dependency, or the lost one hangs on a container that was down already. */
  lemma TransitiveLossIff(w0: World, cfgs: seq<ContainerConfig>, toStop: set<string>, calls: seq<Call>, w: World)
    requires QuietPass(w0, cfgs, toStop, calls, w)
    ensures (exists c, d :: LosesTransitively(w0, w, Deps(cfgs), c, d)) <==>
            || (exists k, d :: LostLink(w0, w, Deps(cfgs), k, d))
            || (exists c, x, d :: DeadLink(w0, w, Deps(cfgs), c, x, d))
  {
    var g := Deps(cfgs);
    FatesAreDowned(w0, cfgs, toStop, calls, w);
    if c, d :| LosesTransitively(w0, w, g, c, d) {
      var p :| PathFromTo(g, c, p, d);
      var k := FateChangesOnPath(g, calls, p);
      SubPath(g, p, 0, k);
      assert Edge(g, p[k], p[k + 1]);
      assert LostLink(w0, w, g, p[k], p[k + 1]) || DeadLink(w0, w, g, c, p[k], p[k + 1]);
    }
    if k, d :| LostLink(w0, w, g, k, d) {
      EdgeReaches(g, k, d);
      assert LosesTransitively(w0, w, g, k, d);
    }
    if c, x, d :| DeadLink(w0, w, g, c, x, d) {
      EdgeReaches(g, x, d);
      ReachesTrans(g, c, x, d);
      assert LosesTransitively(w0, w, g, c, d);
    }
  }

  lemma FatesAreDowned(w0: World, cfgs: seq<ContainerConfig>, toStop: set<string>, calls: seq<Call>, w: World)
    requires QuietPass(w0, cfgs, toStop, calls, w)
    ensures forall n :: IsRunning(w, n) <==> IsRunning(w0, n) && !Succeeded(calls, n)
    ensures forall n :: Succeeded(calls, n) ==> IsRunning(w0, n)
  {
    forall n | Succeeded(calls, n) ensures IsRunning(w0, n) { assert Requested(calls, n); }
  }

  /** When no stop fails, all of this can be told from the first world. */
  lemma LinksForeseen(w0: World, cfgs: seq<ContainerConfig>, toStop: set<string>, calls: seq<Call>, w: World)
    requires QuietPass(w0, cfgs, toStop, calls, w) && AllSucceed(calls)
    ensures forall k, d :: LostLink(w0, w, Deps(cfgs), k, d) <==>
              Edge(Deps(cfgs), k, d) && KeptAbove(w0, cfgs, toStop, k, d)
    ensures forall n :: IsRunning(w, n) <==> IsRunning(w0, n) && !Stopped(w0, cfgs, toStop, n)
  {
    forall k, d
      ensures LostLink(w0, w, Deps(cfgs), k, d) <==> Edge(Deps(cfgs), k, d) && KeptAbove(w0, cfgs, toStop, k, d)
    {
      DependencyLostExactlyBelowKept(w0, cfgs, toStop, calls, w, k, d);
      assert Edge(Deps(cfgs), k, d) ==> Declares(cfgs, k, d);
    }
    forall n ensures IsRunning(w, n) <==> IsRunning(w0, n) && !Stopped(w0, cfgs, toStop, n) {
      assert Requested(calls, n) <==> Succeeded(calls, n);
    }
  }

  /** Whatever runs has its dependencies running. */
  ghost predicate Served(w: World, g: Graph) {
    forall c, d :: IsRunning(w, c) && Edge(g, c, d) ==> IsRunning(w, d)
  }

  lemma ServedTransitively(w: World, g: Graph, c: string, d: string)
    requires Served(w, g) && IsRunning(w, c) && Reaches(g, c, d)
    ensures IsRunning(w, d)
  {
    var up := set n | n in w && IsRunning(w, n);
    ClosedContainsReachable(g, up, c, d);
  }

  /** From a world in which whatever runs has its dependencies running, every survivor keeps all its
      transitive dependencies exactly when no member is kept above one that is not. */
  lemma ServedWorldLossIff(w0: World, cfgs: seq<ContainerConfig>, toStop: set<string>, calls: seq<Call>, w: World)
    requires QuietPass(w0, cfgs, toStop, calls, w) && AllSucceed(calls) && Served(w0, Deps(cfgs))
    ensures (forall c, d :: IsRunning(w, c) && Reaches(Deps(cfgs), c, d) ==> IsRunning(w, d)) <==>
            (forall k, d :: Edge(Deps(cfgs), k, d) ==> !KeptAbove(w0, cfgs, toStop, k, d))
  {
    var g := Deps(cfgs);
    TransitiveLossIff(w0, cfgs, toStop, calls, w);
    LinksForeseen(w0, cfgs, toStop, calls, w);
    forall c, x | IsRunning(w0, c) && Reaches(g, c, x) ensures IsRunning(w0, x) {
      ServedTransitively(w0, g, c, x);
    }
    hide Reaches, Edge, KeptAbove, Stopped, QuietPass;
    forall c, x, d ensures !DeadLink(w0, w, g, c, x, d) {}
    forall c, d | IsRunning(w, c) && Reaches(g, c, d) && !IsRunning(w, d) ensures LosesTransitively(w0, w, g, c, d) {}
  }

  // ---------------------------------------------------------------- the reverse index

  function DeclaredBy(name: string, deps: seq<string>, n: string): seq<string> {
    if deps == [] then []
    else DeclaredBy(name, deps[..|deps| - 1], n) + if deps[|deps| - 1] == n then [name] else []
  }

  /** The declared dependents of `n`, in list order and as often as they declare it. */
  function Dependents(cfgs: seq<ContainerConfig>, n: string): seq<string> {
    if cfgs == [] then []
    else
      var c := cfgs[|cfgs| - 1];
      Dependents(cfgs[..|cfgs| - 1], n) + DeclaredBy(c.name, c.dependsOn, n)
  }

  function ListAt(m: map<string, seq<string>>, n: string): seq<string> {
    if n in m then m[n] else []
  }

  /** `rev` is the index of `before` plus what the first `j` dependencies of one entry add. */
  ghost predicate Extends(before: map<string, seq<string>>, name: string, deps: seq<string>, j: nat,
                          rev: map<string, seq<string>>)
    requires j <= |deps|
  {
    && (forall n :: ListAt(rev, n) == ListAt(before, n) + DeclaredBy(name, deps[..j], n))
    && (forall n :: n in rev ==> rev[n] != [])
  }

  ghost predicate Indexes(cfgs: seq<ContainerConfig>, rev: map<string, seq<string>>) {
    && (forall n :: ListAt(rev, n) == Dependents(cfgs, n))
    && (forall n :: n in rev ==> rev[n] != [])
  }

  method BuildReverseDeps(cfgs: seq<ContainerConfig>) returns (rev: map<string, seq<string>>)
    ensures Indexes(cfgs, rev)
  {
    rev := map[];
    for i := 0 to |cfgs|
      invariant Indexes(cfgs[..i], rev)
    {
      var c := cfgs[i];
      ghost var outer := rev;
      for j := 0 to |c.dependsOn|
        invariant Extends(outer, c.name, c.dependsOn, j, rev)
      {
        var dep := c.dependsOn[j];
        ExtendsMore(outer, c.name, c.dependsOn, j, rev);
        rev := rev[dep := ListAt(rev, dep) + [c.name]];
      }
      IndexesMore(cfgs, i, outer, rev);
    }
    assert cfgs[..|cfgs|] == cfgs;
  }

  lemma ExtendsMore(before: map<string, seq<string>>, name: string, deps: seq<string>, j: nat,
                    rev: map<string, seq<string>>)
    requires j < |deps| && Extends(before, name, deps, j, rev)
    ensures Extends(before, name, deps, j + 1, rev[deps[j] := ListAt(rev, deps[j]) + [name]])
  {
    var rev' := rev[deps[j] := ListAt(rev, deps[j]) + [name]];
    forall n ensures ListAt(rev', n) == ListAt(before, n) + DeclaredBy(name, deps[..j + 1], n) {
      ListGrows(before, name, deps, j, rev, n);
    }
  }

  lemma ListGrows(before: map<string, seq<string>>, name: string, deps: seq<string>, j: nat,
                  rev: map<string, seq<string>>, n: string)
    requires j < |deps| && ListAt(rev, n) == ListAt(before, n) + DeclaredBy(name, deps[..j], n)
    ensures ListAt(rev[deps[j] := ListAt(rev, deps[j]) + [name]], n) ==
            ListAt(before, n) + DeclaredBy(name, deps[..j + 1], n)
  {
    assert deps[..j + 1][..j] == deps[..j];
  }

  lemma IndexesMore(cfgs: seq<ContainerConfig>, i: nat, before: map<string, seq<string>>, rev: map<string, seq<string>>)
    requires i < |cfgs| && Indexes(cfgs[..i], before)
    requires Extends(before, cfgs[i].name, cfgs[i].dependsOn, |cfgs[i].dependsOn|, rev)
    ensures Indexes(cfgs[..i + 1], rev)
  {
    var c := cfgs[i];
    assert c.dependsOn[..|c.dependsOn|] == c.dependsOn;
    assert cfgs[..i + 1][..i] == cfgs[..i];
    forall n ensures ListAt(rev, n) == Dependents(cfgs[..i + 1], n) {
      assert ListAt(before, n) == Dependents(cfgs[..i], n);
    }
  }

  lemma {:induction false} DeclaredByIs(name: string, deps: seq<string>, n: string, d: string)
    ensures d in DeclaredBy(name, deps, n) <==> d == name && n in deps
  {
    if deps != [] { DeclaredByIs(name, deps[..|deps| - 1], n, d); }
  }

  /** The reverse index holds exactly the direct dependents. */
  lemma {:induction false} DependentsAreDeclared(cfgs: seq<ContainerConfig>, n: string, d: string)
    ensures d in Dependents(cfgs, n) <==> Declares(cfgs, d, n)
  {
    if cfgs != [] {
      var rest, c := cfgs[..|cfgs| - 1], cfgs[|cfgs| - 1];
      DependentsAreDeclared(rest, n, d);
      DeclaredByIs(c.name, c.dependsOn, n, d);
      assert cfgs == rest + [c];
    }
  }

  // ---------------------------------------------------------------- the pass, member by member

  ghost function Tail(order: seq<string>, i: nat): set<string>
    requires i <= |order|
  {
    set n | n in order[i..]
  }

  lemma TailGrows(order: seq<string>, i: nat)
    requires i < |order| && Distinct(order)
    ensures Tail(order, i) == Tail(order, i + 1) + {order[i]} && order[i] !in Tail(order, i + 1)
  {}

  ghost predicate IsStopOrder(cfgs: seq<ContainerConfig>, toStop: set<string>, order: seq<string>) {
    && Distinct(order) && (forall n :: n in order <==> n in toStop)
    && (Acyclic(Deps(cfgs)) ==>
          forall i, j :: 0 <= i < |order| && 0 <= j < |order| && Edge(Deps(cfgs), order[i], order[j]) ==> j < i)
  }

  /** `pos` places each request in the stop order, going down. */
  ghost predicate Placed(order: seq<string>, i: nat, pos: seq<nat>, calls: seq<Call>) {
    && |pos| == |calls|
    && (forall k :: 0 <= k < |pos| ==> i <= pos[k] < |order| && order[pos[k]] == calls[k].name)
    && (forall k, l :: 0 <= k < l < |pos| ==> pos[l] < pos[k])
  }

  /** The pass has dealt with the positions from `i` on. */
  ghost predicate QuietSoFar(w0: World, cfgs: seq<ContainerConfig>, toStop: set<string>, order: seq<string>, i: nat,
                             calls: seq<Call>, w: World)
    requires i <= |order|
  {
    && (forall n :: Requested(calls, n) <==> n in Tail(order, i) && Stopped(w0, cfgs, toStop, n))
    && (forall k :: 0 <= k < |calls| ==> calls[k].at == Downed(w0, calls[..k]))
    && w == Downed(w0, calls)
  }

  ghost predicate PassSoFar(w0: World, cfgs: seq<ContainerConfig>, toStop: set<string>, order: seq<string>, i: nat,
                            pos: seq<nat>, calls: seq<Call>, w: World, quiet: bool)
    requires i <= |order|
  {
    Placed(order, i, pos, calls) && (quiet ==> QuietSoFar(w0, cfgs, toStop, order, i, calls, w))
  }

  /** One iteration on member `n`: at most one request; undisturbed, exactly when `n` is to be stopped. */
  ghost predicate MemberOutcome(w: World, cfgs: seq<ContainerConfig>, toStop: set<string>, n: string,
                                calls: seq<Call>, w': World, quiet: bool) {
    && (calls == [] || (|calls| == 1 && calls[0].name == n))
    && (quiet ==> (calls != [] <==> Stopped(w, cfgs, toStop, n)))
    && (quiet && calls != [] ==> calls[0].at == w)
    && (quiet ==> w' == if calls != [] && calls[0].ok then w[n := Exited] else w)
  }

  lemma OneMoreRequest(w0: World, calls: seq<Call>, c: Call)
    requires forall k :: 0 <= k < |calls| ==> calls[k].at == Downed(w0, calls[..k])
    requires c.at == Downed(w0, calls) && c.name in w0
    ensures forall n :: Requested(calls + [c], n) <==> Requested(calls, n) || n == c.name
    ensures forall k :: 0 <= k < |calls + [c]| ==> (calls + [c])[k].at == Downed(w0, (calls + [c])[..k])
    ensures Downed(w0, calls + [c]) == if c.ok then Downed(w0, calls)[c.name := Exited] else Downed(w0, calls)
  {
    forall n ensures Succeeded(calls + [c], n) <==> Succeeded(calls, n) || (n == c.name && c.ok) {}
    forall k | 0 <= k < |calls + [c]| ensures (calls + [c])[k].at == Downed(w0, (calls + [c])[..k]) {
      assert (calls + [c])[..k] == calls[..k];
      assert k == |calls| ==> calls[..k] == calls;
    }
  }

  lemma QuietStep(w0: World, cfgs: seq<ContainerConfig>, toStop: set<string>, order: seq<string>, i: nat,
                  calls: seq<Call>, w: World, more: seq<Call>, w': World)
    requires i < |order| && IsStopOrder(cfgs, toStop, order)
    requires QuietSoFar(w0, cfgs, toStop, order, i + 1, calls, w)
    requires MemberOutcome(w, cfgs, toStop, order[i], more, w', true)
    ensures QuietSoFar(w0, cfgs, toStop, order, i, calls + more, w')
  {
    var n := order[i];
    TailGrows(order, i);
    forall c | c in calls ensures c.name in toStop && c.name != n { assert Requested(calls, c.name); }
    VerdictUnchanged(w0, cfgs, toStop, calls, n);
    if more != [] {
      OneMoreRequest(w0, calls, more[0]);
      assert more == [more[0]];
    } else {
      assert calls + more == calls;
    }
  }

  lemma PlaceMore(order: seq<string>, i: nat, pos: seq<nat>, calls: seq<Call>, more: seq<Call>)
    requires i < |order| && Placed(order, i + 1, pos, calls)
    requires more == [] || (|more| == 1 && more[0].name == order[i])
    ensures Placed(order, i, pos + if more == [] then [] else [i], calls + more)
  {}

  lemma PassStep(w0: World, cfgs: seq<ContainerConfig>, toStop: set<string>, order: seq<string>, i: nat,
                 pos: seq<nat>, calls: seq<Call>, w: World, before: bool, more: seq<Call>, w': World, quiet: bool)
    requires i < |order| && IsStopOrder(cfgs, toStop, order)
    requires PassSoFar(w0, cfgs, toStop, order, i + 1, pos, calls, w, before) && (quiet ==> before)
    requires MemberOutcome(w, cfgs, toStop, order[i], more, w', quiet)
    ensures PassSoFar(w0, cfgs, toStop, order, i, pos + if more == [] then [] else [i], calls + more, w', quiet)
  {
    PlaceMore(order, i, pos, calls, more);
    if quiet { QuietStep(w0, cfgs, toStop, order, i, calls, w, more, w'); }
  }

  lemma PassBegins(w0: World, cfgs: seq<ContainerConfig>, toStop: set<string>, order: seq<string>, quiet: bool)
    ensures PassSoFar(w0, cfgs, toStop, order, |order|, [], [], w0, quiet)
  {}

  lemma PassEnds(w0: World, cfgs: seq<ContainerConfig>, toStop: set<string>, order: seq<string>,
                 pos: seq<nat>, calls: seq<Call>, w: World, quiet: bool)
    requires IsStopOrder(cfgs, toStop, order) && PassSoFar(w0, cfgs, toStop, order, 0, pos, calls, w, quiet)
    ensures OrderlyStops(cfgs, toStop, calls)
    ensures quiet ==> QuietPass(w0, cfgs, toStop, calls, w)
  {}

  // ---------------------------------------------------------------- which entry points are idle

  /** Only entry points with a host and an idle timeout count, and only once they have been seen. */
  predicate IsIdle(c: ContainerConfig, lastSeen: map<string, int>, now: int) {
    c.host != "" && c.idleTimeout != 0 && c.name in lastSeen && now - lastSeen[c.name] >= c.idleTimeout
  }

  function IdleNames(cfgs: seq<ContainerConfig>, lastSeen: map<string, int>, now: int): (r: seq<string>)
    ensures forall n :: n in r <==>
              exists c :: c in cfgs && c.name == n && c.host != "" && c.idleTimeout != 0
                          && n in lastSeen && now - lastSeen[n] >= c.idleTimeout
  {
    if cfgs == [] then []
    else
      var c := cfgs[|cfgs| - 1];
      IdleNames(cfgs[..|cfgs| - 1], lastSeen, now) + if IsIdle(c, lastSeen, now) then [c.name] else []
  }

  /** Every stop request of a tick is for something an entry point depends on that has a host and an
      idle timeout, was seen before, and has been idle for that long. */
  lemma StopsComeFromIdle(cfgs: seq<ContainerConfig>, lastSeen: map<string, int>, now: int, calls: seq<Call>)
    requires OrderlyStops(cfgs, StopSet(cfgs, IdleNames(cfgs, lastSeen, now)), calls)
    ensures forall c :: c in calls ==>
              exists e :: e in cfgs && e.host != "" && e.idleTimeout != 0 && e.name in lastSeen
                          && now - lastSeen[e.name] >= e.idleTimeout && Reaches(Deps(cfgs), e.name, c.name)
  {
    forall c | c in calls
      ensures exists e :: e in cfgs && e.host != "" && e.idleTimeout != 0 && e.name in lastSeen
                          && now - lastSeen[e.name] >= e.idleTimeout && Reaches(Deps(cfgs), e.name, c.name)
    {
      assert InSomeClosure(Deps(cfgs), IdleNames(cfgs, lastSeen, now), c.name);
    }
  }

  /** What the watcher can tell before the pass: `n` runs, an idle entry point pulls it down, and so
      does one for every running container that declares it. */
  ghost predicate PulledDown(w: World, cfgs: seq<ContainerConfig>, idle: seq<string>, n: string) {
    && IsRunning(w, n) && InSomeClosure(Deps(cfgs), idle, n)
    && forall d :: Declares(cfgs, d, n) && IsRunning(w, d) ==> InSomeClosure(Deps(cfgs), idle, d)
  }

  /** Any container, an entry point with recent traffic included, gets a stop request in an
      undisturbed pass exactly when it is pulled down, and goes down exactly when that succeeds. */
  lemma StopRequestedIff(w0: World, cfgs: seq<ContainerConfig>, idle: seq<string>, calls: seq<Call>, w: World,
                         n: string)
    requires QuietPass(w0, cfgs, StopSet(cfgs, idle), calls, w)
    ensures Requested(calls, n) <==> PulledDown(w0, cfgs, idle, n)
    ensures IsRunning(w, n) <==> IsRunning(w0, n) && !(PulledDown(w0, cfgs, idle, n) && Succeeded(calls, n))
  {
    forall m ensures m in StopSet(cfgs, idle) <==> InSomeClosure(Deps(cfgs), idle, m) {}
    assert Succeeded(calls, n) ==> Requested(calls, n);
  }
}
