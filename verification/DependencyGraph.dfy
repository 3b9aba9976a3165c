/** The `depends_on` relation as a directed graph, and what reachability and cycles mean in it.
    This is the reference the three depth-first searches of the gateway are measured against. */
module DependencyGraph {
  import opened Config

  /** Names the container list defines, each with its declared dependencies. */
  type Graph = map<string, seq<string>>

  function GraphOf(cfgMap: map<string, ContainerConfig>): Graph {
    map n | n in cfgMap :: cfgMap[n].dependsOn
  }

  function Deps(cfgs: seq<ContainerConfig>): Graph { GraphOf(ContainerMap(cfgs)) }

  predicate Edge(g: Graph, a: string, b: string) { a in g && b in g[a] }

  ghost predicate IsPath(g: Graph, p: seq<string>) {
    |p| > 0 && forall i :: 0 <= i < |p| - 1 ==> Edge(g, p[i], p[i + 1])
  }

  ghost predicate PathFromTo(g: Graph, a: string, p: seq<string>, b: string) {
    IsPath(g, p) && p[0] == a && p[|p| - 1] == b
  }

  /** `b` is `a` itself or one of its transitive dependencies. */
  ghost predicate Reaches(g: Graph, a: string, b: string) {
    exists p :: PathFromTo(g, a, p, b)
  }

  ghost predicate IsCycle(g: Graph, p: seq<string>) {
    |p| > 1 && IsPath(g, p) && p[0] == p[|p| - 1]
  }

  ghost predicate OnCycle(g: Graph, a: string) {
    exists p :: IsCycle(g, p) && p[0] == a
  }

  ghost predicate Acyclic(g: Graph) { forall a :: !OnCycle(g, a) }

  ghost predicate Closed(g: Graph, s: set<string>) {
    forall a, b :: a in s && Edge(g, a, b) ==> b in s
  }

  ghost predicate Distinct<T>(s: seq<T>) {
    forall i, j :: 0 <= i < j < |s| ==> s[i] != s[j]
  }

  /** Every dependency of an entry stands before it. */
  ghost predicate DepsFirst(g: Graph, order: seq<string>) {
    forall i, b :: 0 <= i < |order| && Edge(g, order[i], b) ==> b in order[..i]
  }

  // ---------------------------------------------------------------- reachability

  lemma ReachesSelf(g: Graph, a: string)
    ensures Reaches(g, a, a)
  {
    assert PathFromTo(g, a, [a], a);
  }

  lemma ReachesTrans(g: Graph, a: string, b: string, c: string)
    requires Reaches(g, a, b) && Reaches(g, b, c)
    ensures Reaches(g, a, c)
  {
    var p :| PathFromTo(g, a, p, b);
    var q :| PathFromTo(g, b, q, c);
    var r := p + q[1..];
    assert forall i :: |p| <= i < |r| ==> r[i] == q[i - |p| + 1];
    assert PathFromTo(g, a, r, c);
  }

  lemma EdgeReaches(g: Graph, a: string, b: string)
    requires Edge(g, a, b)
    ensures Reaches(g, a, b)
  {
    assert PathFromTo(g, a, [a, b], b);
  }

  /** An edge followed by a way back is a cycle. */
  lemma EdgeBackIsCycle(g: Graph, a: string, b: string)
    requires Edge(g, a, b) && Reaches(g, b, a)
    ensures OnCycle(g, a)
  {
    var q :| PathFromTo(g, b, q, a);
    var r := [a] + q;
    assert forall i :: 0 < i < |r| ==> r[i] == q[i - 1];
    assert IsCycle(g, r) && r[0] == a;
  }

  lemma CycleHasEdge(g: Graph, a: string)
    requires OnCycle(g, a)
    ensures exists b :: Edge(g, a, b)
  {
    var p :| IsCycle(g, p) && p[0] == a;
    assert Edge(g, p[0], p[1]);
  }

  lemma NoEdgesNoCycle(g: Graph)
    requires forall a, b :: !Edge(g, a, b)
    ensures Acyclic(g)
  {
    forall a ensures !OnCycle(g, a) {
      if OnCycle(g, a) { CycleHasEdge(g, a); }
    }
  }

  lemma OnCycleReachesBack(g: Graph, a: string, b: string)
    requires a != b && Reaches(g, a, b) && Reaches(g, b, a)
    ensures OnCycle(g, a)
  {
    var p :| PathFromTo(g, a, p, b);
    assert Edge(g, p[0], p[1]);
    assert PathFromTo(g, p[1], p[1..], b);
    ReachesTrans(g, p[1], b, a);
    EdgeBackIsCycle(g, a, p[1]);
  }

  lemma PathGrows(g: Graph, p: seq<string>, b: string)
    requires p != [] ==> IsPath(g, p) && Edge(g, p[|p| - 1], b)
    ensures IsPath(g, p + [b])
  {}

  lemma {:induction false} ClosedKeepsPath(g: Graph, s: set<string>, p: seq<string>, i: nat)
    requires Closed(g, s) && IsPath(g, p) && p[0] in s && i < |p|
    ensures p[i] in s
  {
    if i > 0 {
      ClosedKeepsPath(g, s, p, i - 1);
      assert Edge(g, p[i - 1], p[i - 1 + 1]);
    }
  }

  lemma ClosedContainsReachable(g: Graph, s: set<string>, a: string, b: string)
    requires Closed(g, s) && a in s && Reaches(g, a, b)
    ensures b in s
  {
    var p :| PathFromTo(g, a, p, b);
    ClosedKeepsPath(g, s, p, |p| - 1);
  }

  /** Any piece of a path is a path. */
  lemma SubPath(g: Graph, p: seq<string>, i: nat, j: nat)
    requires IsPath(g, p) && i <= j < |p|
    ensures IsPath(g, p[i..j + 1]) && Reaches(g, p[i], p[j])
  {
    var q := p[i..j + 1];
    forall k | 0 <= k < |q| - 1 ensures Edge(g, q[k], q[k + 1]) {
      assert Edge(g, p[i + k], p[i + k + 1]);
    }
    assert PathFromTo(g, p[i], q, p[j]);
  }

  /** Each dependency stands before its dependents, so an order closed under
      dependencies leaves no room for a cycle. */
  lemma {:induction false} PathDescends(g: Graph, order: seq<string>, p: seq<string>, i: nat,
                                        at: nat) returns (last: nat)
    requires Distinct(order) && DepsFirst(g, order) && IsPath(g, p)
    requires at < |order| && order[at] == p[0] && i < |p|
    ensures last < |order| && order[last] == p[i] && last + i <= at
  {
    if i == 0 { return at; }
    var k := PathDescends(g, order, p, i - 1, at);
    assert Edge(g, p[i - 1], p[i - 1 + 1]);
    assert p[i] in order[..k];
    last :| 0 <= last < k && order[..k][last] == p[i];
  }

  lemma OrderedIsAcyclic(g: Graph, order: seq<string>, a: string)
    requires Distinct(order) && DepsFirst(g, order) && a in order
    ensures !OnCycle(g, a)
  {
    if OnCycle(g, a) {
      var p :| IsCycle(g, p) && p[0] == a;
      var at :| 0 <= at < |order| && order[at] == a;
      var k := PathDescends(g, order, p, |p| - 1, at);
      assert false;
    }
  }

  lemma OrderIsClosed(g: Graph, order: seq<string>, a: string, b: string)
    requires DepsFirst(g, order) && a in order && Reaches(g, a, b)
    ensures b in order
  {
    var s := set x | x in order;
    assert Closed(g, s) by {
      forall x, y | x in s && Edge(g, x, y) ensures y in s {
        var i :| 0 <= i < |order| && order[i] == x;
        assert y in order[..i];
      }
    }
    ClosedContainsReachable(g, s, a, b);
  }

  /** Positions in a dependency-first order: a proper transitive dependency comes strictly earlier. */
  lemma ReachableIsEarlier(g: Graph, order: seq<string>, i: nat, b: string)
    requires Distinct(order) && DepsFirst(g, order) && i < |order|
    requires Reaches(g, order[i], b) && b != order[i]
    ensures b in order[..i]
  {
    var p :| PathFromTo(g, order[i], p, b);
    var k := PathDescends(g, order, p, |p| - 1, i);
    assert order[..i][k] == b;
  }

  // ---------------------------------------------------------------- cycles of a layered graph

  /** `whole` is `low` and `high` side by side, and nothing leads from `low` to `high`. */
  ghost predicate Layered(whole: Graph, low: Graph, high: Graph, lows: set<string>) {
    && (forall a, b :: Edge(low, a, b) ==> a in lows && b in lows)
    && (forall a, b :: Edge(high, a, b) ==> a !in lows)
    && (forall a, b :: Edge(whole, a, b) <==> Edge(low, a, b) || Edge(high, a, b))
  }

  lemma LayeredCycles(whole: Graph, low: Graph, high: Graph, lows: set<string>)
    requires Layered(whole, low, high, lows)
    ensures Acyclic(whole) <==> Acyclic(low) && Acyclic(high)
  {
    if !Acyclic(low) {
      var p, a :| IsCycle(low, p) && p[0] == a;
      assert IsCycle(whole, p);
      assert OnCycle(whole, p[0]);
    }
    if !Acyclic(high) {
      var p, a :| IsCycle(high, p) && p[0] == a;
      assert IsCycle(whole, p);
      assert OnCycle(whole, p[0]);
    }
    if a :| OnCycle(whole, a) {
      var p :| IsCycle(whole, p) && p[0] == a;
      CycleStaysInLayer(whole, low, high, lows, p);
      assert OnCycle(low, p[0]) || OnCycle(high, p[0]);
    }
  }

  lemma CycleStaysInLayer(whole: Graph, low: Graph, high: Graph, lows: set<string>, p: seq<string>)
    requires Layered(whole, low, high, lows) && IsCycle(whole, p)
    ensures IsCycle(low, p) || IsCycle(high, p)
  {
    assert Closed(whole, lows);
    if i :| 0 <= i < |p| && p[i] in lows {
      SubPath(whole, p, i, |p| - 1);
      ClosedContainsReachable(whole, lows, p[i], p[|p| - 1]);
      forall k | 0 <= k < |p| ensures p[k] in lows {
        ClosedKeepsPath(whole, lows, p, k);
      }
      forall k | 0 <= k < |p| - 1 ensures Edge(low, p[k], p[k + 1]) { assert Edge(whole, p[k], p[k + 1]); }
    } else {
      forall k | 0 <= k < |p| - 1 ensures Edge(high, p[k], p[k + 1]) { assert Edge(whole, p[k], p[k + 1]); }
    }
  }

  // ---------------------------------------------------------------- back to the container list

  /** With distinct names the edges are what the containers declare. */
  lemma DeclaredIsEdge(cs: seq<ContainerConfig>)
    requires forall i, j :: 0 <= i < j < |cs| ==> cs[i].name != cs[j].name
    ensures forall c :: c in cs ==> c.name in Deps(cs) && Deps(cs)[c.name] == c.dependsOn
    ensures forall a, b :: Edge(Deps(cs), a, b) <==> exists c :: c in cs && c.name == a && b in c.dependsOn
  {
    forall c | c in cs ensures ContainerMap(cs)[c.name] == c {}
  }

  /** Containers each of which depends on the next, and the last on the first. */
  ghost predicate Ring(cs: seq<ContainerConfig>, ring: seq<ContainerConfig>) {
    && |ring| > 0 && (forall c :: c in ring ==> c in cs)
    && (forall i :: 0 <= i < |ring| - 1 ==> ring[i + 1].name in ring[i].dependsOn)
    && ring[0].name in ring[|ring| - 1].dependsOn
  }

  lemma RingIsCycle(cs: seq<ContainerConfig>, ring: seq<ContainerConfig>)
    requires forall i, j :: 0 <= i < j < |cs| ==> cs[i].name != cs[j].name
    requires Ring(cs, ring)
    ensures OnCycle(Deps(cs), ring[0].name)
  {
    var p := NamesOf(ring) + [ring[0].name];
    forall i | 0 <= i < |p| - 1 ensures Edge(Deps(cs), p[i], p[i + 1]) {
      assert ring[i] in cs;
      DeclaredEdge(cs, ring[i], p[i + 1]);
    }
    assert IsCycle(Deps(cs), p);
  }

  function NamesOf(cs: seq<ContainerConfig>): (r: seq<string>)
    ensures |r| == |cs| && forall i :: 0 <= i < |cs| ==> r[i] == cs[i].name
  {
    seq(|cs|, i requires 0 <= i < |cs| => cs[i].name)
  }

  lemma DeclaredEdge(cs: seq<ContainerConfig>, c: ContainerConfig, d: string)
    requires forall i, j :: 0 <= i < j < |cs| ==> cs[i].name != cs[j].name
    requires c in cs && d in c.dependsOn
    ensures Edge(Deps(cs), c.name, d)
  {
    DeclaredIsEdge(cs);
  }

  lemma CycleIsRing(cs: seq<ContainerConfig>, p: seq<string>) returns (ring: seq<ContainerConfig>)
    requires IsCycle(Deps(cs), p)
    ensures Ring(cs, ring)
  {
    var m := ContainerMap(cs);
    forall i | 0 <= i < |p| - 1 ensures p[i] in m && p[i + 1] in m[p[i]].dependsOn {
      assert Edge(Deps(cs), p[i], p[i + 1]);
    }
    ring := seq(|p| - 1, i requires 0 <= i < |p| - 1 => m[p[i]]);
    assert p[|p| - 2 + 1] in m[p[|p| - 2]].dependsOn;
  }

  /** The graph is acyclic exactly when no containers depend on one another in a ring. */
  lemma AcyclicIffNoRing(cs: seq<ContainerConfig>)
    requires forall i, j :: 0 <= i < j < |cs| ==> cs[i].name != cs[j].name
    ensures Acyclic(Deps(cs)) <==> forall ring :: !Ring(cs, ring)
  {
    if ring :| Ring(cs, ring) { RingIsCycle(cs, ring); }
    if a :| OnCycle(Deps(cs), a) {
      var p :| IsCycle(Deps(cs), p) && p[0] == a;
      var ring := CycleIsRing(cs, p);
    }
  }
}
