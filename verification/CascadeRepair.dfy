/** A repaired idle pass: a member is stopped only if none of its direct dependents runs when its turn
    comes, so a kept member counts as running for its own dependencies. */
module CascadeRepair {
  import opened Config
  import opened DependencyGraph
  import opened Docker
  import opened Cascade

  ghost predicate InUse(w: World, cfgs: seq<ContainerConfig>, n: string) {
    exists d :: Declares(cfgs, d, n) && IsRunning(w, d)
  }

  /** The world once the repaired pass has dealt with the positions from `i` on; stops of the names in
      `failing` fail. */
  ghost function Repaired(w: World, cfgs: seq<ContainerConfig>, order: seq<string>, failing: set<string>, i: nat): World
    requires i <= |order|
    decreases |order| - i
  {
    if i == |order| then w
    else
      var before := Repaired(w, cfgs, order, failing, i + 1);
      if IsRunning(before, order[i]) && !InUse(before, cfgs, order[i]) && order[i] !in failing
      then before[order[i] := Exited] else before
  }

  /** Nothing is ever started, and only listed names are stopped. */
  lemma {:induction false} OnlyStops(w: World, cfgs: seq<ContainerConfig>, order: seq<string>, failing: set<string>,
                                     i: nat, n: string)
    requires i <= |order|
    ensures IsRunning(Repaired(w, cfgs, order, failing, i), n) ==> IsRunning(w, n)
    ensures n !in order[i..] || n in failing ==> Lookup(Repaired(w, cfgs, order, failing, i), n) == Lookup(w, n)
    decreases |order| - i
  {
    if i < |order| {
      OnlyStops(w, cfgs, order, failing, i + 1, n);
      assert order[i..] == [order[i]] + order[i + 1..];
    }
  }

  /** In whatever order, and whichever stops fail: no running container loses a direct dependency. */
  lemma {:induction false} NoDependencyLost(w: World, cfgs: seq<ContainerConfig>, order: seq<string>,
                                            failing: set<string>, i: nat, c: string, d: string)
    requires i <= |order| && Declares(cfgs, c, d) && IsRunning(w, d)
    requires IsRunning(Repaired(w, cfgs, order, failing, i), c)
    ensures IsRunning(Repaired(w, cfgs, order, failing, i), d)
    decreases |order| - i
  {
    if i < |order| { NoDependencyLost(w, cfgs, order, failing, i + 1, c, d); }
  }

  /** So a world in which whatever runs has its dependencies running stays one. */
  lemma RepairedStaysServed(w: World, cfgs: seq<ContainerConfig>, order: seq<string>, failing: set<string>)
    requires Served(w, Deps(cfgs))
    ensures Served(Repaired(w, cfgs, order, failing, 0), Deps(cfgs))
  {
    var after := Repaired(w, cfgs, order, failing, 0);
    forall c, d | IsRunning(after, c) && Edge(Deps(cfgs), c, d) ensures IsRunning(after, d) {
      OnlyStops(w, cfgs, order, failing, 0, c);
      NoDependencyLost(w, cfgs, order, failing, 0, c, d);
    }
  }

  /** The repaired pass cannot take it down: an outsider, or a member whose stop fails. */
  predicate Anchored(toStop: set<string>, failing: set<string>, n: string) { n !in toStop || n in failing }

  /** A chain of running containers, each a dependency of the one before, down from an anchored one. */
  ghost predicate HeldBy(w: World, cfgs: seq<ContainerConfig>, toStop: set<string>, failing: set<string>,
                         p: seq<string>, n: string) {
    && |p| > 0 && Anchored(toStop, failing, p[0]) && p[|p| - 1] == n
    && (forall k :: 0 <= k < |p| ==> IsRunning(w, p[k]))
    && (forall k :: 0 <= k < |p| - 1 ==> Declares(cfgs, p[k], p[k + 1]))
  }

  ghost predicate Held(w: World, cfgs: seq<ContainerConfig>, toStop: set<string>, failing: set<string>, n: string) {
    exists p :: HeldBy(w, cfgs, toStop, failing, p, n)
  }

  lemma {:induction false} ChainSurvives(w: World, cfgs: seq<ContainerConfig>, toStop: set<string>,
                                         failing: set<string>, order: seq<string>, p: seq<string>, n: string)
    requires IsStopOrder(cfgs, toStop, order) && HeldBy(w, cfgs, toStop, failing, p, n)
    ensures IsRunning(Repaired(w, cfgs, order, failing, 0), n)
  {
    if |p| == 1 {
      OnlyStops(w, cfgs, order, failing, 0, n);
    } else {
      var q := p[..|p| - 1];
      assert Declares(cfgs, p[|p| - 2], p[|p| - 2 + 1]);
      ChainSurvives(w, cfgs, toStop, failing, order, q, q[|q| - 1]);
      NoDependencyLost(w, cfgs, order, failing, 0, q[|q| - 1], n);
    }
  }

  lemma HeldBelow(w: World, cfgs: seq<ContainerConfig>, toStop: set<string>, failing: set<string>, d: string, n: string)
    requires Held(w, cfgs, toStop, failing, d) && Declares(cfgs, d, n) && IsRunning(w, n)
    ensures Held(w, cfgs, toStop, failing, n)
  {
    var p :| HeldBy(w, cfgs, toStop, failing, p, d);
    assert HeldBy(w, cfgs, toStop, failing, p + [n], n);
  }

  /** A member that survives its turn is held by a chain: the dependent that saved it was dealt with before. */
  lemma {:induction false} SurvivorIsHeld(w: World, cfgs: seq<ContainerConfig>, toStop: set<string>,
                                          failing: set<string>, order: seq<string>, i: nat)
    requires IsStopOrder(cfgs, toStop, order) && Acyclic(Deps(cfgs)) && DistinctNames(cfgs) && i < |order|
    requires IsRunning(Repaired(w, cfgs, order, failing, i), order[i])
    ensures Held(w, cfgs, toStop, failing, order[i])
    decreases |order| - i
  {
    var n, before := order[i], Repaired(w, cfgs, order, failing, i + 1);
    OnlyStops(w, cfgs, order, failing, i, n);
    if n in failing {
      assert HeldBy(w, cfgs, toStop, failing, [n], n);
    } else {
      var d :| Declares(cfgs, d, n) && IsRunning(before, d);
      OnlyStops(w, cfgs, order, failing, i + 1, d);
      if d in toStop {
        var j :| 0 <= j < |order| && order[j] == d;
        assert Edge(Deps(cfgs), order[j], order[i]);
        RunsAtItsTurn(w, cfgs, order, failing, i + 1, j);
        SurvivorIsHeld(w, cfgs, toStop, failing, order, j);
      } else {
        assert HeldBy(w, cfgs, toStop, failing, [d], d);
      }
      HeldBelow(w, cfgs, toStop, failing, d, n);
    }
  }

  lemma {:induction false} RunsAtItsTurn(w: World, cfgs: seq<ContainerConfig>, order: seq<string>, failing: set<string>,
                                         i: nat, j: nat)
    requires i <= j < |order| && IsRunning(Repaired(w, cfgs, order, failing, i), order[j])
    ensures IsRunning(Repaired(w, cfgs, order, failing, j), order[j])
    decreases j - i
  {
    if i < j { RunsAtItsTurn(w, cfgs, order, failing, i + 1, j); }
  }

  /** The repaired pass takes down as much as it can: what runs afterwards is exactly what a chain of
      running containers ties to an outsider or to a member whose stop failed. */
  lemma RepairedSurvivorsIff(w: World, cfgs: seq<ContainerConfig>, toStop: set<string>, failing: set<string>,
                             order: seq<string>, n: string)
    requires IsStopOrder(cfgs, toStop, order) && Acyclic(Deps(cfgs)) && DistinctNames(cfgs)
    ensures IsRunning(Repaired(w, cfgs, order, failing, 0), n) <==> Held(w, cfgs, toStop, failing, n)
  {
    if p :| HeldBy(w, cfgs, toStop, failing, p, n) {
      ChainSurvives(w, cfgs, toStop, failing, order, p, n);
    }
    if IsRunning(Repaired(w, cfgs, order, failing, 0), n) {
      OnlyStops(w, cfgs, order, failing, 0, n);
      if n in toStop {
        var i :| 0 <= i < |order| && order[i] == n;
        RunsAtItsTurn(w, cfgs, order, failing, 0, i);
        SurvivorIsHeld(w, cfgs, toStop, failing, order, i);
      } else {
        assert HeldBy(w, cfgs, toStop, failing, [n], n);
      }
    }
  }

  lemma {:induction false} ChainIsNotStopped(w: World, cfgs: seq<ContainerConfig>, toStop: set<string>, p: seq<string>,
                                             n: string)
    requires forall k, d :: !KeptAbove(w, cfgs, toStop, k, d)
    requires HeldBy(w, cfgs, toStop, {}, p, n)
    ensures !Stopped(w, cfgs, toStop, n)
  {
    if |p| > 1 {
      var q := p[..|p| - 1];
      assert Declares(cfgs, p[|p| - 2], p[|p| - 2 + 1]);
      ChainIsNotStopped(w, cfgs, toStop, q, q[|q| - 1]);
      assert !KeptAbove(w, cfgs, toStop, q[|q| - 1], n);
    }
  }

  /** Held is what the gateway's own verdicts leave running, exactly when no member is kept above one
      that is not. */
  lemma VerdictsAreRightIff(w: World, cfgs: seq<ContainerConfig>, toStop: set<string>)
    ensures (forall n :: Held(w, cfgs, toStop, {}, n) <==> IsRunning(w, n) && !Stopped(w, cfgs, toStop, n)) <==>
            (forall k, d :: !KeptAbove(w, cfgs, toStop, k, d))
  {
    if forall k, d :: !KeptAbove(w, cfgs, toStop, k, d) {
      forall n ensures Held(w, cfgs, toStop, {}, n) <==> IsRunning(w, n) && !Stopped(w, cfgs, toStop, n) {
        HeldIfNotStopped(w, cfgs, toStop, n);
        if p :| HeldBy(w, cfgs, toStop, {}, p, n) { ChainIsNotStopped(w, cfgs, toStop, p, n); }
      }
    } else {
      var k, d :| KeptAbove(w, cfgs, toStop, k, d);
      KeptAboveIsHeld(w, cfgs, toStop, k, d);
    }
  }

  lemma HeldIfNotStopped(w: World, cfgs: seq<ContainerConfig>, toStop: set<string>, n: string)
    ensures IsRunning(w, n) && !Stopped(w, cfgs, toStop, n) ==> Held(w, cfgs, toStop, {}, n)
  {
    if IsRunning(w, n) && !Stopped(w, cfgs, toStop, n) {
      if n in toStop {
        var x :| Declares(cfgs, x, n) && x !in toStop && IsRunning(w, x);
        assert HeldBy(w, cfgs, toStop, {}, [x, n], n);
      } else {
        assert HeldBy(w, cfgs, toStop, {}, [n], n);
      }
    }
  }

  lemma KeptAboveIsHeld(w: World, cfgs: seq<ContainerConfig>, toStop: set<string>, k: string, d: string)
    requires KeptAbove(w, cfgs, toStop, k, d)
    ensures Held(w, cfgs, toStop, {}, d) && Stopped(w, cfgs, toStop, d)
  {
    var x :| Declares(cfgs, x, k) && x !in toStop && IsRunning(w, x);
    assert HeldBy(w, cfgs, toStop, {}, [x, k, d], d);
  }

  /** Without failures, the pass the gateway makes leaves the same containers running as the repaired
      one exactly when no member is kept above one that is not. */
  lemma RepairChangesNothingIff(w0: World, cfgs: seq<ContainerConfig>, toStop: set<string>, order: seq<string>,
                                calls: seq<Call>, w: World)
    requires IsStopOrder(cfgs, toStop, order) && Acyclic(Deps(cfgs)) && DistinctNames(cfgs)
    requires QuietPass(w0, cfgs, toStop, calls, w) && AllSucceed(calls)
    ensures (forall n :: IsRunning(w, n) <==> IsRunning(Repaired(w0, cfgs, order, {}, 0), n)) <==>
            (forall k, d :: !KeptAbove(w0, cfgs, toStop, k, d))
  {
    var repaired := Repaired(w0, cfgs, order, {}, 0);
    forall n
      ensures IsRunning(w, n) <==> IsRunning(w0, n) && !Stopped(w0, cfgs, toStop, n)
      ensures IsRunning(repaired, n) <==> Held(w0, cfgs, toStop, {}, n)
    {
      assert Requested(calls, n) <==> Succeeded(calls, n);
      RepairedSurvivorsIff(w0, cfgs, toStop, {}, order, n);
    }
    hide IsRunning, Held, KeptAbove, Stopped, Repaired;
    VerdictsAreRightIff(w0, cfgs, toStop);
  }
}
