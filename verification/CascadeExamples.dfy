/** Families of configurations on which plausible claims about the idle watcher fail,
    whatever the containers are called. */
module CascadeExamples {
  import opened Config
  import opened DependencyGraph
  import opened TopoSort
  import opened Docker
  import opened Cascade

  function Entry(name: string, idleTimeout: int, dependsOn: seq<string>): ContainerConfig {
    ContainerConfig(name, name + ".localhost", "80", idleTimeout, dependsOn, "", "", "")
  }

  lemma LookupEntry(cfgs: seq<ContainerConfig>, i: nat)
    requires DistinctNames(cfgs) && i < |cfgs|
    ensures cfgs[i].name in Deps(cfgs) && Deps(cfgs)[cfgs[i].name] == cfgs[i].dependsOn
  {}

  lemma ChainIsSortable(cfgs: seq<ContainerConfig>, top: string, mid: string, low: string)
    requires top != mid && mid != low && low != top
    requires top in Deps(cfgs) && mid in Deps(cfgs) && low in Deps(cfgs)
    requires Deps(cfgs)[top] == [mid] && Deps(cfgs)[mid] == [low] && Deps(cfgs)[low] == []
    ensures Sortable(Deps(cfgs), top)
    ensures forall n :: Reaches(Deps(cfgs), top, n) <==> n in [low, mid, top]
  {
    var g, order := Deps(cfgs), [low, mid, top];
    EdgeReaches(g, top, mid);
    EdgeReaches(g, mid, low);
    ReachesTrans(g, top, mid, low);
    ReachesSelf(g, top);
    forall i, b | 0 <= i < |order| && Edge(g, order[i], b) ensures b in order[..i] {
      assert order[..1][0] == low;
      assert order[..2][1] == mid;
    }
    OrderMeansSortable(g, top, order);
  }

  lemma StopSetOfOne(cfgs: seq<ContainerConfig>, ep: string, closure: seq<string>)
    requires Sortable(Deps(cfgs), ep) && forall n :: Reaches(Deps(cfgs), ep, n) <==> n in closure
    ensures StopSet(cfgs, [ep]) == set n | n in closure
  {}

  /** A three-level chain at the head of a list: its top sorts, and stopping the top reaches all three. */
  lemma ChainStopSet(cfgs: seq<ContainerConfig>)
    requires DistinctNames(cfgs) && |cfgs| >= 3
    requires cfgs[0].dependsOn == [cfgs[1].name] && cfgs[1].dependsOn == [cfgs[2].name] && cfgs[2].dependsOn == []
    ensures StopSet(cfgs, [cfgs[0].name]) == {cfgs[0].name, cfgs[1].name, cfgs[2].name}
  {
    LookupEntry(cfgs, 0);
    LookupEntry(cfgs, 1);
    LookupEntry(cfgs, 2);
    var a, b, c := cfgs[0].name, cfgs[1].name, cfgs[2].name;
    hide Sortable, Reaches;
    ChainIsSortable(cfgs, a, b, c);
    StopSetOfOne(cfgs, a, [c, b, a]);
  }

  /** a -> b -> c and x -> b. */
  function Kept(a: string, b: string, c: string, x: string): seq<ContainerConfig> {
    [Entry(a, 600, [b]), Entry(b, 0, [c]), Entry(c, 0, []), Entry(x, 0, [b])]
  }

  lemma KeptDeclares(a: string, b: string, c: string, x: string, d: string, n: string)
    ensures Declares(Kept(a, b, c, x), d, n) <==> (d == a && n == b) || (d == b && n == c) || (d == x && n == b)
  {}

  lemma KeptStopSet(a: string, b: string, c: string, x: string)
    requires Distinct([a, b, c, x])
    ensures StopSet(Kept(a, b, c, x), [a]) == {a, b, c} && DistinctNames(Kept(a, b, c, x))
    ensures a != b && b != c && c != a && x !in {a, b, c}
  {
    var l := [a, b, c, x];
    assert l[0] != l[1] && l[0] != l[2] && l[0] != l[3] && l[1] != l[2] && l[1] != l[3] && l[2] != l[3];
    ChainStopSet(Kept(a, b, c, x));
  }

  /** `b` is needed exactly while `x` runs, and `c` is stopped whenever it runs. */
  lemma KeptVerdicts(a: string, b: string, c: string, x: string, w: World)
    requires Distinct([a, b, c, x]) && IsRunning(w, x)
    ensures Needed(w, Kept(a, b, c, x), {a, b, c}, b) && !Needed(w, Kept(a, b, c, x), {a, b, c}, c)
    ensures Reaches(Deps(Kept(a, b, c, x)), x, c)
    ensures Declares(Kept(a, b, c, x), x, b) && Declares(Kept(a, b, c, x), b, c)
  {
    var g := Deps(Kept(a, b, c, x));
    KeptStopSet(a, b, c, x);
    LookupEntry(Kept(a, b, c, x), 1);
    LookupEntry(Kept(a, b, c, x), 3);
    KeptDeclares(a, b, c, x, x, b);
    KeptDeclares(a, b, c, x, b, c);
    forall d ensures Declares(Kept(a, b, c, x), d, c) ==> d == b { KeptDeclares(a, b, c, x, d, c); }
    EdgeReaches(g, x, b);
    EdgeReaches(g, b, c);
    ReachesTrans(g, x, b, c);
  }

  lemma NothingKept(a: string, b: string, c: string, x: string, w: World)
    requires a !in {b, c} && !IsRunning(w, b)
    ensures forall k, d :: !KeptAbove(w, Kept(a, b, c, x), {a, b, c}, k, d)
  {
    forall k, d ensures !KeptAbove(w, Kept(a, b, c, x), {a, b, c}, k, d) {
      KeptDeclares(a, b, c, x, k, d);
      forall y ensures !Declares(Kept(a, b, c, x), y, a) { KeptDeclares(a, b, c, x, y, a); }
    }
  }

  /** With `a` idle and everything running, `b` is kept for the outsider `x`, but `c` is stopped under
      it: `b` loses its direct dependency and `x` a transitive one. */
  lemma KeptContainerLosesDependency(a: string, b: string, c: string, x: string, w0: World, calls: seq<Call>, w: World)
    requires Distinct([a, b, c, x])
    requires IsRunning(w0, a) && IsRunning(w0, b) && IsRunning(w0, c) && IsRunning(w0, x)
    requires QuietPass(w0, Kept(a, b, c, x), StopSet(Kept(a, b, c, x), [a]), calls, w) && AllSucceed(calls)
    ensures LosesDependency(w0, w, Kept(a, b, c, x), b, c)
    ensures LosesTransitively(w0, w, Deps(Kept(a, b, c, x)), x, c)
  {
    var cfgs := Kept(a, b, c, x);
    KeptStopSet(a, b, c, x);
    KeptVerdicts(a, b, c, x, w0);
    DependencyLostExactlyBelowKept(w0, cfgs, {a, b, c}, calls, w, b, c);
    OutsidersKeepDependencies(w0, cfgs, {a, b, c}, calls, w, 0, x, b);
  }

  /** With `b` down from the start nothing is kept, and still `x` loses its transitive dependency `c`. */
  lemma DeadLinkLosesDependency(a: string, b: string, c: string, x: string, w0: World, calls: seq<Call>, w: World)
    requires Distinct([a, b, c, x])
    requires IsRunning(w0, x) && !IsRunning(w0, b) && IsRunning(w0, c)
    requires QuietPass(w0, Kept(a, b, c, x), StopSet(Kept(a, b, c, x), [a]), calls, w) && AllSucceed(calls)
    ensures forall k, d :: !KeptAbove(w0, Kept(a, b, c, x), StopSet(Kept(a, b, c, x), [a]), k, d)
    ensures LosesTransitively(w0, w, Deps(Kept(a, b, c, x)), x, c)
  {
    var cfgs := Kept(a, b, c, x);
    KeptStopSet(a, b, c, x);
    KeptVerdicts(a, b, c, x, w0);
    NothingKept(a, b, c, x, w0);
    hide Deps, StopSet, Kept, KeptAbove, DistinctNames, Needed;
    OutsidersKeepDependencies(w0, cfgs, {a, b, c}, calls, w, 0, x, b);
    MemberIsDown(w0, cfgs, {a, b, c}, calls, w, c);
  }

  lemma MemberIsDown(w0: World, cfgs: seq<ContainerConfig>, toStop: set<string>, calls: seq<Call>, w: World, n: string)
    requires QuietPass(w0, cfgs, toStop, calls, w) && AllSucceed(calls) && Stopped(w0, cfgs, toStop, n)
    ensures !IsRunning(w, n)
  {
    assert Requested(calls, n);
  }

  /** The shape of the topology demo. */
  function Demo(front: string, back: string, db: string): seq<ContainerConfig> {
    [Entry(front, 600, [back]), Entry(back, 600, [db]), Entry(db, 600, [])]
  }

  lemma DemoIdle(front: string, back: string, db: string, seen: map<string, int>, now: int)
    requires front in seen && back in seen && db in seen
    requires now - seen[front] >= 600 && now - seen[back] < 600 && now - seen[db] < 600
    ensures IdleNames(Demo(front, back, db), seen, now) == [front]
  {
    var k := Demo(front, back, db);
    assert k[..2] == [k[0], k[1]] && k[..2][..1] == [k[0]];
    assert IdleNames([k[0]], seen, now) == [front];
    assert IdleNames([k[0], k[1]], seen, now) == [front];
  }

  lemma DemoBackStopped(front: string, back: string, db: string, w: World)
    requires Distinct([front, back, db]) && IsRunning(w, back)
    ensures StopSet(Demo(front, back, db), [front]) == {front, back, db} && front != back
    ensures Stopped(w, Demo(front, back, db), {front, back, db}, back)
  {
    var cfgs, l := Demo(front, back, db), [front, back, db];
    assert l[0] != l[1] && l[0] != l[2] && l[1] != l[2];
    ChainStopSet(cfgs);
    forall d | Declares(cfgs, d, back) ensures d == front {}
  }

  /** The backend was requested recently, the frontend was not: a stop of the backend is requested. */
  lemma ActiveEntryPointIsStopped(front: string, back: string, db: string, seen: map<string, int>, now: int,
                                  w0: World, calls: seq<Call>, w: World)
    requires Distinct([front, back, db]) && IsRunning(w0, front) && IsRunning(w0, back)
    requires front in seen && back in seen && db in seen
    requires now - seen[front] >= 600 && now - seen[back] < 600 && now - seen[db] < 600
    requires
      var cfgs := Demo(front, back, db);
      QuietPass(w0, cfgs, StopSet(cfgs, IdleNames(cfgs, seen, now)), calls, w)
    ensures back !in IdleNames(Demo(front, back, db), seen, now) && Requested(calls, back)
  {
    DemoBackStopped(front, back, db, w0);
    hide IdleNames, StopSet, Demo, Stopped, Deps;
    DemoIdle(front, back, db, seen, now);
  }
}
