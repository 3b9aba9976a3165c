/** gateway/config.go: the three-colour search that rejects cyclic configurations. */
module CycleDetection {
  import opened Wrappers
  import opened Config
  import opened DependencyGraph
  import opened TopoSort

  datatype Colour = Unvisited | Visiting | Visited

  /** The error carries the path joined into its message and the name met twice. */
  datatype CycleError = CycleError(path: seq<string>, name: string)

  type Colouring = map<string, Colour>

  /** A missing key reads as the zero colour. */
  function ColourOf(state: Colouring, n: string): Colour {
    if n in state then state[n] else Unvisited
  }

  /** The names coloured `c` are those of `names`. */
  ghost predicate ColouredExactly(state: Colouring, c: Colour, names: seq<string>) {
    forall n :: ColourOf(state, n) == c <==> n in names
  }

  /** Names never lose a colour they had, except that nothing is said about `Unvisited` ones. */
  ghost predicate KeepsColours(before: Colouring, after: Colouring) {
    forall n :: ColourOf(before, n) != Unvisited ==> ColourOf(after, n) == ColourOf(before, n)
  }

  /** The visiting names are the current chain `path`; the visited ones are `finished`, dependencies first. */
  ghost predicate Consistent(g: Graph, state: Colouring, path: seq<string>, finished: seq<string>) {
    && ColouredExactly(state, Visiting, path)
    && ColouredExactly(state, Visited, finished)
    && (path != [] ==> IsPath(g, path))
    && Distinct(path)
    && Distinct(finished) && DepsFirst(g, finished)
  }

  /** The reported path is a chain of dependencies, the last of which leads back to `name`:
      its part from the first meeting with `name` is a cycle. */
  ghost predicate ReportsCycle(g: Graph, e: CycleError) {
    && IsPath(g, e.path) && Edge(g, e.path[|e.path| - 1], e.name) && Distinct(e.path)
    && exists i :: 0 <= i < |e.path| && e.path[i] == e.name && IsCycle(g, e.path[i..] + [e.name])
  }

  ghost function Unseen(g: Graph, state: Colouring): set<string> {
    set n | n in g.Keys && ColourOf(state, n) == Unvisited
  }

  lemma EnterKeeps(g: Graph, state: Colouring, path: seq<string>, finished: seq<string>, name: string)
    requires Consistent(g, state, path, finished) && ColourOf(state, name) == Unvisited
    requires path != [] ==> Edge(g, path[|path| - 1], name)
    ensures Consistent(g, state[name := Visiting], path + [name], finished)
    ensures KeepsColours(state, state[name := Visiting])
    ensures Unseen(g, state[name := Visiting]) == Unseen(g, state) - {name}
  {}

  lemma LeaveKeeps(g: Graph, state: Colouring, path: seq<string>, finished: seq<string>, name: string)
    requires Consistent(g, state, path + [name], finished)
    requires forall b :: Edge(g, name, b) ==> b in finished
    ensures Consistent(g, state[name := Visited], path, finished + [name])
  {
    var inner := path + [name];
    assert inner[|path|] == name && name in inner;
    assert name !in path by {
      forall i | 0 <= i < |path| ensures path[i] != name { assert inner[i] != inner[|path|]; }
    }
    assert ColourOf(state, name) == Visiting;
    AppendKeepsOrder(g, finished, name);
    forall n ensures n in inner <==> n in path || n == name {
      if n in path { assert n in path + [name]; }
    }
    assert ColouredExactly(state[name := Visited], Visiting, path);
    assert path != [] ==> IsPath(g, path) by {
      forall i | 0 <= i < |path| - 1 ensures Edge(g, path[i], path[i + 1]) {
        assert Edge(g, inner[i], inner[i + 1]);
      }
    }
    forall i, j | 0 <= i < j < |path| ensures path[i] != path[j] { assert inner[i] != inner[j]; }
  }

  class Detector {
    const cfgMap: map<string, ContainerConfig>
    var state: Colouring
    ghost var finished: seq<string>

    constructor (cfgMap: map<string, ContainerConfig>)
      ensures this.cfgMap == cfgMap && state == map[] && finished == []
    {
      this.cfgMap := cfgMap;
      state, finished := map[], [];
    }

    ghost function G(): Graph { GraphOf(cfgMap) }

    method Visit(name: string, path: seq<string>) returns (err: Option<CycleError>)
      requires Consistent(G(), state, path, finished)
      requires path != [] ==> Edge(G(), path[|path| - 1], name)
      modifies this
      ensures err.None? ==> Consistent(G(), state, path, finished) && ColourOf(state, name) == Visited
      ensures err.None? ==> KeepsColours(old(state), state) && old(finished) <= finished
      ensures err.Some? ==> ReportsCycle(G(), err.value)
      ensures err.Some? ==> ColouredExactly(state, Visiting, err.value.path)
      decreases Unseen(G(), state)
    {
      if ColourOf(state, name) == Visited {
        return None;
      }
      if ColourOf(state, name) == Visiting {
        PathCloses(G(), path, name);
        return Some(CycleError(path, name));
      }
      EnterKeeps(G(), state, path, finished, name);
      ghost var s0, f0 := state, finished;
      state := state[name := Visiting];
      ghost var s1 := state;
      var deps := if name in cfgMap then cfgMap[name].dependsOn else [];
      for i := 0 to |deps|
        invariant Consistent(G(), state, path + [name], finished)
        invariant KeepsColours(s1, state) && f0 <= finished
        invariant forall k :: 0 <= k < i ==> deps[k] in finished
      {
        assert Edge(G(), name, deps[i]);
        assert name in Unseen(G(), s0) && Unseen(G(), state) <= Unseen(G(), s1);
        var e := Visit(deps[i], path + [name]);
        if e.Some? {
          return e;
        }
      }
      assert forall b :: Edge(G(), name, b) ==> b in finished;
      LeaveKeeps(G(), state, path, finished, name);
      state := state[name := Visited];
      finished := finished + [name];
      return None;
    }
  }

  lemma PathCloses(g: Graph, path: seq<string>, name: string)
    requires path != [] && Distinct(path) && IsPath(g, path) && name in path
    requires Edge(g, path[|path| - 1], name)
    ensures ReportsCycle(g, CycleError(path, name))
  {}

  /** The check passes exactly on an acyclic `depends_on` graph; a reported path contains a real cycle. */
  method DetectDependencyCycles(containers: seq<ContainerConfig>) returns (err: Option<CycleError>)
    ensures err.None? <==> Acyclic(Deps(containers))
    ensures err.Some? ==> ReportsCycle(Deps(containers), err.value)
  {
    var cfgMap := BuildContainerMap(containers);
    ghost var g := Deps(containers);
    var d := new Detector(cfgMap);
    for i := 0 to |containers|
      invariant Consistent(g, d.state, [], d.finished) && d.cfgMap == cfgMap
      invariant forall c :: c in containers[..i] ==> c.name in d.finished
    {
      var name := containers[i].name;
      ghost var before := d.finished;
      if ColourOf(d.state, name) == Unvisited {
        var e := d.Visit(name, []);
        if e.Some? {
          ReportMeansCyclic(g, e.value);
          return e;
        }
      }
      assert ColourOf(d.state, name) != Visiting;
      assert before <= d.finished && name in d.finished;
      forall c | c in containers[..i + 1] ensures c.name in d.finished {
        if c in containers[..i] { assert c.name in before; }
      }
    }
    AllFinishedIsAcyclic(containers, d.finished);
    return None;
  }

  lemma AllFinishedIsAcyclic(containers: seq<ContainerConfig>, finished: seq<string>)
    requires Distinct(finished) && DepsFirst(Deps(containers), finished)
    requires forall c :: c in containers ==> c.name in finished
    ensures Acyclic(Deps(containers))
  {
    var g := Deps(containers);
    forall a ensures !OnCycle(g, a) {
      if OnCycle(g, a) {
        CycleHasEdge(g, a);
        OrderedIsAcyclic(g, finished, a);
      }
    }
  }

  lemma ReportMeansCyclic(g: Graph, e: CycleError)
    requires ReportsCycle(g, e)
    ensures !Acyclic(g)
  {
    var i :| 0 <= i < |e.path| && e.path[i] == e.name && IsCycle(g, e.path[i..] + [e.name]);
    assert OnCycle(g, e.name);
  }
}
