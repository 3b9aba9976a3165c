/** gateway/group.go: the dependency-first order of one target. */
module TopoSort {
  import opened Wrappers
  import opened Config
  import opened DependencyGraph

  datatype SortError =
    | TargetNotFound(name: string)
    | CycleInvolving(name: string)
    | DependencyNotFound(name: string)

  /** What a sort error asserts about the graph. */
  ghost predicate Explains(g: Graph, from: string, e: SortError) {
    match e
    case TargetNotFound(n) => n == from && n !in g
    case CycleInvolving(n) => Reaches(g, from, n) && OnCycle(g, n)
    case DependencyNotFound(n) => Reaches(g, from, n) && n !in g
  }

  /** Everything below `target` is configured and free of cycles. */
  ghost predicate Sortable(g: Graph, target: string) {
    forall n :: Reaches(g, target, n) ==> n in g && !OnCycle(g, n)
  }

  /** A correct start order for `target`: exactly its closure, once each, dependencies first. */
  ghost predicate IsStartOrder(g: Graph, target: string, order: seq<string>) {
    && |order| > 0 && order[|order| - 1] == target
    && Distinct(order)
    && DepsFirst(g, order)
    && (forall n :: n in order <==> Reaches(g, target, n))
  }

  // ---------------------------------------------------------------- declared order

  /** One of the first `m` dependencies reaches `x`. */
  ghost predicate BelowFirst(g: Graph, deps: seq<string>, m: nat, x: string) {
    exists l :: 0 <= l < m && l < |deps| && Reaches(g, deps[l], x)
  }

  /** Dependencies declared earlier come earlier, except for what an equally early one already needs. */
  ghost predicate InDeclaredOrder(g: Graph, deps: seq<string>, order: seq<string>) {
    forall i, j, p, q :: 0 <= i < j < |deps| && 0 <= q < p < |order| && order[p] == deps[i] && order[q] == deps[j] ==>
      BelowFirst(g, deps, i + 1, deps[j])
  }

  /** `marks[k]` is the length of the order when the visit of dependency `k` was over. */
  ghost predicate Marked(g: Graph, deps: seq<string>, before: seq<string>, order: seq<string>, marks: seq<nat>) {
    && |marks| <= |deps|
    && forall k :: 0 <= k < |marks| ==>
         marks[k] <= |order| && deps[k] in order[..marks[k]] && MarkedAt(g, deps, before, order[..marks[k]], k + 1)
  }

  ghost predicate MarkedAt(g: Graph, deps: seq<string>, before: seq<string>, upTo: seq<string>, m: nat) {
    forall x :: x in upTo ==> x in before || BelowFirst(g, deps, m, x)
  }

  lemma MarksBegin(g: Graph, deps: seq<string>, order: seq<string>)
    ensures Marked(g, deps, order, order, []) && MarkedAt(g, deps, order, order, 0)
  {}

  lemma MarkMore(g: Graph, deps: seq<string>, before: seq<string>, order: seq<string>, marks: seq<nat>,
                 order': seq<string>)
    requires |marks| < |deps| && Marked(g, deps, before, order, marks) && MarkedAt(g, deps, before, order, |marks|)
    requires order <= order' && deps[|marks|] in order'
    requires forall x :: x in order' && x !in order ==> Reaches(g, deps[|marks|], x)
    ensures Marked(g, deps, before, order', marks + [|order'|]) && MarkedAt(g, deps, before, order', |marks| + 1)
  {}

  lemma MarksGiveOrder(g: Graph, deps: seq<string>, order: seq<string>, marks: seq<nat>, name: string)
    requires Marked(g, deps, [], order, marks) && |marks| == |deps| && Distinct(order) && name !in order
    ensures InDeclaredOrder(g, deps, order + [name])
  {}

  /** The closure state of the recursive search: `visited`, `visiting` and `order`. */
  class Sorter {
    const cfgMap: map<string, ContainerConfig>
    var visited: set<string>
    var visiting: set<string>
    var order: seq<string>

    constructor (cfgMap: map<string, ContainerConfig>)
      ensures this.cfgMap == cfgMap && visited == {} && visiting == {} && order == []
    {
      this.cfgMap := cfgMap;
      visited, visiting, order := {}, {}, [];
    }

    ghost function G(): Graph { GraphOf(cfgMap) }

    /** `stack` is the chain of names whose visit has begun and not ended. */
    ghost predicate Valid(stack: seq<string>)
      reads this
    {
      && (forall n :: n in visiting <==> n in stack)
      && (forall n :: n in visited <==> n in order)
      && (stack != [] ==> IsPath(G(), stack))
      && visited !! visiting
      && visited <= cfgMap.Keys
      && Distinct(order) && DepsFirst(G(), order)
    }

    method Visit(name: string, ghost stack: seq<string>) returns (err: Option<SortError>)
      requires Valid(stack)
      requires stack != [] ==> Edge(G(), stack[|stack| - 1], name)
      modifies this
      ensures err.None? ==> Valid(stack) && name in visited && visiting == old(visiting)
      ensures err.None? ==> old(visited) <= visited && old(order) <= order
      ensures err.None? ==> forall n :: n in visited && n !in old(visited) ==> Reaches(G(), name, n)
      ensures err.None? && name !in old(visited) ==> |order| > 0 && order[|order| - 1] == name
      ensures err.None? && old(order) == [] && old(visiting) == {} ==>
                name in cfgMap && InDeclaredOrder(G(), cfgMap[name].dependsOn, order)
      ensures err.Some? ==> !err.value.TargetNotFound? && Explains(G(), name, err.value)
      decreases cfgMap.Keys - visited - visiting
    {
      hide IsPath, DepsFirst, Distinct, Reaches, OnCycle, Marked, MarkedAt, InDeclaredOrder;
      if name in visited {
        return None;
      }
      ReachesSelf(G(), name);
      if name in visiting {
        StackCloses(G(), stack, name);
        return Some(CycleInvolving(name));
      }
      visiting := visiting + {name};
      if name !in cfgMap {
        return Some(DependencyNotFound(name));
      }
      var deps := cfgMap[name].dependsOn;
      ghost var inner := stack + [name];
      ghost var v0, o0 := visited, order;
      ghost var marks: seq<nat> := [];
      PathGrows(G(), stack, name);
      MarksBegin(G(), deps, order);
      for i := 0 to |deps|
        invariant Valid(inner)
        invariant visiting == old(visiting) + {name}
        invariant v0 <= visited && old(order) <= order
        invariant forall n :: n in visited && n !in v0 ==> Reaches(G(), name, n)
        invariant forall k :: 0 <= k < i ==> deps[k] in visited
        invariant |marks| == i && Marked(G(), deps, o0, order, marks) && MarkedAt(G(), deps, o0, order, i)
      {
        ghost var before, o1 := visited, order;
        assert Edge(G(), name, deps[i]);
        EdgeReaches(G(), name, deps[i]);
        var e := Visit(deps[i], inner);
        if e.Some? {
          ReachesTrans(G(), name, deps[i], e.value.name);
          return e;
        }
        forall n | n in visited && n !in before ensures Reaches(G(), name, n) {
          ReachesTrans(G(), name, deps[i], n);
        }
        MarkMore(G(), deps, o0, o1, marks, order);
        marks := marks + [|order|];
      }
      if o0 == [] { MarksGiveOrder(G(), deps, order, marks, name); }
      AppendKeepsOrder(G(), order, name);
      visiting := visiting - {name};
      visited := visited + {name};
      order := order + [name];
      return None;
    }
  }

  lemma StackCloses(g: Graph, stack: seq<string>, name: string)
    requires stack != [] && IsPath(g, stack) && Edge(g, stack[|stack| - 1], name) && name in stack
    ensures OnCycle(g, name)
  {
    var i :| 0 <= i < |stack| && stack[i] == name;
    SubPath(g, stack, i, |stack| - 1);
    var last := stack[|stack| - 1];
    if i == |stack| - 1 {
      ReachesSelf(g, name);
      EdgeBackIsCycle(g, name, name);
    } else {
      EdgeReaches(g, last, name);
      if last == name {
        EdgeBackIsCycle(g, name, name);
      } else {
        OnCycleReachesBack(g, name, last);
      }
    }
  }

  lemma AppendKeepsOrder(g: Graph, order: seq<string>, name: string)
    requires Distinct(order) && DepsFirst(g, order) && name !in order
    requires forall b :: Edge(g, name, b) ==> b in order
    ensures Distinct(order + [name]) && DepsFirst(g, order + [name])
  {
    var o := order + [name];
    forall i, b | 0 <= i < |o| && Edge(g, o[i], b) ensures b in o[..i] {
      if i < |order| {
        assert o[..i] == order[..i] && o[i] == order[i];
      } else {
        assert o[..i] == order;
      }
    }
  }

  /** Sorting succeeds exactly on a sortable target and then returns a correct start order;
      on failure the error names a real culprit. */
  method TopologicalSort(target: string, allContainers: seq<ContainerConfig>)
    returns (r: Result<seq<string>, SortError>)
    ensures r.Ok? <==> Sortable(Deps(allContainers), target)
    ensures r.Ok? ==> IsStartOrder(Deps(allContainers), target, r.value)
    ensures r.Ok? ==> target in Deps(allContainers)
                      && InDeclaredOrder(Deps(allContainers), Deps(allContainers)[target], r.value)
    ensures r.Err? ==> Explains(Deps(allContainers), target, r.error)
  {
    var cfgMap := BuildContainerMap(allContainers);
    ghost var g := Deps(allContainers);
    ReachesSelf(g, target);
    if target !in cfgMap {
      return Err(TargetNotFound(target));
    }
    var s := new Sorter(cfgMap);
    var e := s.Visit(target, []);
    if e.Some? {
      return Err(e.value);
    }
    OrderMeansSortable(g, target, s.order);
    return Ok(s.order);
  }

  lemma OrderMeansSortable(g: Graph, target: string, order: seq<string>)
    requires Distinct(order) && DepsFirst(g, order) && target in order
    requires forall n :: n in order ==> n in g && Reaches(g, target, n)
    ensures Sortable(g, target)
    ensures forall n :: n in order <==> Reaches(g, target, n)
  {
    forall n | Reaches(g, target, n) ensures n in order && n in g && !OnCycle(g, n) {
      OrderIsClosed(g, order, target, n);
      OrderedIsAcyclic(g, order, n);
    }
  }

  /** A start order in terms of the container list: it ends with the target, every dependency of a
      container in it comes earlier, and everything in it but the target is there as a dependency. */
  lemma OrderInTermsOfTheList(cs: seq<ContainerConfig>, target: string, order: seq<string>)
    requires forall i, j :: 0 <= i < j < |cs| ==> cs[i].name != cs[j].name
    requires IsStartOrder(Deps(cs), target, order)
    ensures order[|order| - 1] == target
    ensures forall i, c, d :: 0 <= i < |order| && c in cs && c.name == order[i] && d in c.dependsOn ==> d in order[..i]
    ensures forall n :: n in order && n != target ==> exists c :: c in cs && c.name in order && n in c.dependsOn
  {
    DeclaredIsEdge(cs);
    var g := Deps(cs);
    forall i, c, d | 0 <= i < |order| && c in cs && c.name == order[i] && d in c.dependsOn ensures d in order[..i] {
      assert Edge(g, order[i], d);
    }
    forall n | n in order && n != target ensures exists c :: c in cs && c.name in order && n in c.dependsOn {
      var p :| PathFromTo(g, target, p, n);
      assert Edge(g, p[|p| - 2], p[|p| - 2 + 1]);
      SubPath(g, p, 0, |p| - 2);
      assert Reaches(g, target, p[|p| - 2]);
    }
  }

  /** What an error says about the container list: a missing target or dependency is listed nowhere, a
      name on a cycle is listed and depends on a listed container. */
  lemma ErrorInTermsOfTheList(cs: seq<ContainerConfig>, target: string, e: SortError)
    requires Explains(Deps(cs), target, e)
    ensures e.TargetNotFound? ==> e.name == target && forall c :: c in cs ==> c.name != target
    ensures e.DependencyNotFound? ==> forall c :: c in cs ==> c.name != e.name
    ensures e.DependencyNotFound? && e.name != target ==> exists c :: c in cs && e.name in c.dependsOn
    ensures e.CycleInvolving? ==> exists c :: c in cs && c.name == e.name && c.dependsOn != []
  {
    if e.CycleInvolving? { CycleHasEdge(Deps(cs), e.name); }
    if e.DependencyNotFound? && e.name != target {
      var p :| PathFromTo(Deps(cs), target, p, e.name);
      assert Edge(Deps(cs), p[|p| - 2], p[|p| - 2 + 1]);
    }
  }
}
