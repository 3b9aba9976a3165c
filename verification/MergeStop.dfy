/** gateway/manager.go: one stop order for a whole set of containers, built without cycle detection. */
module MergeStop {
  import opened Config
  import opened DependencyGraph
  import opened TopoSort

  function Keep(names: seq<string>, s: set<string>): (r: seq<string>)
    ensures forall n :: n in r <==> n in names && n in s
  {
    if names == [] then []
    else (if names[0] in s then [names[0]] else []) + Keep(names[1..], s)
  }

  /** The graph with only the nodes and edges inside `s`. */
  function Within(g: Graph, s: set<string>): Graph {
    map n | n in g && n in s :: Keep(g[n], s)
  }

  lemma WithinEdges(g: Graph, s: set<string>, a: string)
    ensures forall b :: Edge(Within(g, s), a, b) <==> Edge(g, a, b) && a in s && b in s
  {}

  /** `stack` holds the visits in progress, `order` the finished ones; together they are `visited`. */
  ghost predicate Consistent(h: Graph, visited: set<string>, order: seq<string>, stack: seq<string>) {
    && (forall n :: n in visited <==> n in order || n in stack)
    && (forall n :: n in order ==> n !in stack)
    && (stack != [] ==> IsPath(h, stack))
    && Distinct(order) && Distinct(stack)
    && (Acyclic(h) ==> DepsFirst(h, order))
  }

  lemma EnterKeeps(h: Graph, visited: set<string>, order: seq<string>, stack: seq<string>, name: string)
    requires Consistent(h, visited, order, stack) && name !in visited
    requires stack != [] ==> Edge(h, stack[|stack| - 1], name)
    ensures Consistent(h, visited + {name}, order, stack + [name])
  {}

  lemma LeaveKeeps(h: Graph, visited: set<string>, order: seq<string>, stack: seq<string>, name: string)
    requires Consistent(h, visited, order, stack + [name])
    requires forall b :: Edge(h, name, b) ==> b in visited
    ensures Consistent(h, visited, order + [name], stack)
  {
    var inner := stack + [name];
    assert inner[|stack|] == name && name in inner;
    assert name !in stack by {
      forall i | 0 <= i < |stack| ensures stack[i] != name { assert inner[i] != inner[|stack|]; }
    }
    forall n ensures n in inner <==> n in stack || n == name {
      if n in stack { assert n in stack + [name]; }
    }
    forall i | 0 <= i < |stack| - 1 ensures Edge(h, stack[i], stack[i + 1]) {
      assert Edge(h, inner[i], inner[i + 1]);
    }
    forall i, j | 0 <= i < j < |stack| ensures stack[i] != stack[j] { assert inner[i] != inner[j]; }
    if Acyclic(h) {
      forall b | Edge(h, name, b) ensures b in order {
        if b in inner { StackCloses(h, inner, b); }
      }
      AppendKeepsOrder(h, order, name);
    }
  }

  class Merger {
    const cfgMap: map<string, ContainerConfig>
    const toStop: set<string>
    var visited: set<string>
    var order: seq<string>

    constructor (cfgMap: map<string, ContainerConfig>, toStop: set<string>)
      ensures this.cfgMap == cfgMap && this.toStop == toStop && visited == {} && order == []
    {
      this.cfgMap, this.toStop := cfgMap, toStop;
      visited, order := {}, [];
    }

    ghost function H(): Graph { Within(GraphOf(cfgMap), toStop) }

    ghost predicate Valid(stack: seq<string>)
      reads this
    {
      visited <= toStop && Consistent(H(), visited, order, stack)
    }

    method Visit(name: string, ghost stack: seq<string>)
      requires Valid(stack) && name in toStop
      requires stack != [] ==> Edge(H(), stack[|stack| - 1], name)
      modifies this
      ensures Valid(stack) && name in visited && old(visited) <= visited && old(order) <= order
      decreases toStop - visited
    {
      hide Consistent, Within;
      WithinEdges(GraphOf(cfgMap), toStop, name);
      if name in visited {
        return;
      }
      ghost var h, inner := H(), stack + [name];
      assert inner[|inner| - 1] == name;
      EnterKeeps(h, visited, order, stack, name);
      visited := visited + {name};
      ghost var v0 := visited;
      if name in cfgMap {
        var deps := cfgMap[name].dependsOn;
        for i := 0 to |deps|
          invariant Valid(inner) && v0 <= visited && old(order) <= order
          invariant forall k :: 0 <= k < i && deps[k] in toStop ==> deps[k] in visited
        {
          if deps[i] in toStop {
            assert Edge(h, name, deps[i]);
            Visit(deps[i], inner);
          }
        }
      }
      assert forall b :: Edge(h, name, b) ==> b in visited;
      LeaveKeeps(h, visited, order, stack, name);
      order := order + [name];
    }
  }

  /** The result lists every member of `toStop` exactly once. Dependencies inside the set all
      stand before their dependents exactly when the set contains no cycle. Both hold for
      whatever order the set is iterated in. */
  method TopoMergeStop(toStop: set<string>, cfgs: seq<ContainerConfig>) returns (order: seq<string>)
    ensures Distinct(order) && (forall n :: n in order <==> n in toStop)
    ensures DepsFirst(Within(Deps(cfgs), toStop), order) <==> Acyclic(Within(Deps(cfgs), toStop))
  {
    var cfgMap := BuildContainerMap(cfgs);
    var m := new Merger(cfgMap, toStop);
    var remaining := toStop;
    while remaining != {}
      invariant m.Valid([]) && m.cfgMap == cfgMap && m.toStop == toStop
      invariant remaining <= toStop && toStop - remaining <= m.visited
    {
      var name :| name in remaining;
      m.Visit(name, []);
      remaining := remaining - {name};
    }
    order := m.order;
    ghost var h := Within(Deps(cfgs), toStop);
    if DepsFirst(h, order) {
      forall a ensures !OnCycle(h, a) {
        if OnCycle(h, a) {
          var p :| IsCycle(h, p) && p[0] == a;
          assert Edge(h, p[0], p[1]);
          OrderedIsAcyclic(h, order, a);
        }
      }
    }
  }

  lemma WithinKeepsCycle(g: Graph, s: set<string>, a: string)
    requires OnCycle(Within(g, s), a)
    ensures OnCycle(g, a)
  {}

  /** Inside an acyclic graph every subset is acyclic. */
  lemma WithinAcyclic(g: Graph, s: set<string>)
    requires Acyclic(g)
    ensures Acyclic(Within(g, s))
  {
    forall a ensures !OnCycle(Within(g, s), a) {
      if OnCycle(Within(g, s), a) { WithinKeepsCycle(g, s, a); }
    }
  }

  /** On an acyclic configuration every dependency edge inside the set points backwards in the stop order. */
  lemma EdgesPointBackwards(g: Graph, s: set<string>, order: seq<string>, i: nat, b: string)
    requires Acyclic(g) && (forall n :: n in order <==> n in s)
    requires DepsFirst(Within(g, s), order) <==> Acyclic(Within(g, s))
    requires i < |order| && Edge(g, order[i], b) && b in s
    ensures b in order[..i]
  {
    WithinAcyclic(g, s);
    assert Edge(Within(g, s), order[i], b);
  }

  /** In terms of the container list: without rings, a member's dependencies inside the set stand before it. */
  lemma StopOrderInTermsOfTheList(cs: seq<ContainerConfig>, toStop: set<string>, order: seq<string>)
    requires forall i, j :: 0 <= i < j < |cs| ==> cs[i].name != cs[j].name
    requires forall ring :: !Ring(cs, ring)
    requires forall n :: n in order <==> n in toStop
    requires DepsFirst(Within(Deps(cs), toStop), order) <==> Acyclic(Within(Deps(cs), toStop))
    ensures forall i, c, d :: 0 <= i < |order| && c in cs && c.name == order[i] && d in c.dependsOn && d in toStop ==>
              d in order[..i]
  {
    AcyclicIffNoRing(cs);
    DeclaredIsEdge(cs);
    forall i, c, d | 0 <= i < |order| && c in cs && c.name == order[i] && d in c.dependsOn && d in toStop
      ensures d in order[..i]
    {
      EdgesPointBackwards(Deps(cs), toStop, order, i, d);
    }
  }
}
