/** gateway/templates/topology.html: the layers and positions of the dependency graph drawing. */
module Topology {
  import opened Config
  import opened DependencyGraph
  import opened MergeStop

  type Layers = map<string, nat>

  function Names(cs: seq<ContainerConfig>): set<string> { set c | c in cs :: c.name }

  function Targets(cs: seq<ContainerConfig>, names: set<string>, a: string): (r: seq<string>)
    ensures forall b :: b in r <==> exists c :: c in cs && c.name == a && b in c.dependsOn && b in names
  {
    if cs == [] then []
    else
      var c := cs[|cs| - 1];
      Targets(cs[..|cs| - 1], names, a) + if c.name == a then Keep(c.dependsOn, names) else []
  }

  /** The edges the drawing knows: declared dependencies on a listed name. */
  function Drawn(cs: seq<ContainerConfig>): Graph {
    map a | a in Names(cs) :: Targets(cs, Names(cs), a)
  }

  /** An edge is drawn exactly for a declared dependency on a listed name. */
  lemma DrawnInPlainTerms(cs: seq<ContainerConfig>, a: string, b: string)
    ensures Edge(Drawn(cs), a, b) <==>
            (exists c :: c in cs && c.name == a && b in c.dependsOn) && (exists d :: d in cs && d.name == b)
  {}

  ghost predicate EndsAt(g: Graph, p: seq<string>, v: string) {
    IsPath(g, p) && p[0] in g && p[|p| - 1] == v
  }

  /** Some dependency path of `n` edges ends at `v`. */
  ghost predicate HasPath(g: Graph, v: string, n: nat) {
    exists p :: EndsAt(g, p, v) && |p| - 1 == n
  }

  /** `n` is the number of edges of a longest dependency path ending at `v`. */
  ghost predicate IsLongest(g: Graph, v: string, n: nat) {
    HasPath(g, v, n) && forall p :: EndsAt(g, p, v) ==> |p| - 1 <= n
  }

  /** Every layer number is the length of some path. */
  ghost predicate Witnessed(g: Graph, layer: Layers) {
    forall v :: v in layer ==> HasPath(g, v, layer[v])
  }

  /** Paths of up to `k` edges are already accounted for. */
  ghost predicate Covers(g: Graph, layer: Layers, k: nat) {
    forall v, p :: v in layer && EndsAt(g, p, v) && |p| - 1 <= k ==> |p| - 1 <= layer[v]
  }

  ghost predicate Grows(before: Layers, after: Layers) {
    after.Keys == before.Keys && forall v :: v in before ==> before[v] <= after[v]
  }

  /** One full pass lifts every dependency above where its dependent stood before the pass. */
  ghost predicate Lifts(g: Graph, before: Layers, after: Layers) {
    Grows(before, after) && forall a, b :: Edge(g, a, b) ==> a in before && b in before && after[b] >= before[a] + 1
  }

  // ---------------------------------------------------------------- one pass

  /** The edges of one container, up to its `j`-th dependency, are lifted. */
  ghost predicate EntryLifted(before: Layers, after: Layers, c: ContainerConfig, j: nat)
    requires j <= |c.dependsOn|
  {
    forall k :: 0 <= k < j && c.name in before && c.dependsOn[k] in after ==>
      after[c.dependsOn[k]] >= before[c.name] + 1
  }

  method RelaxEntry(ghost g: Graph, c: ContainerConfig, layer0: Layers,
                    ghost before: Layers) returns (layer: Layers, changed: bool)
    requires c.name in layer0 && EntryEdges(g, c, layer0)
    requires Grows(before, layer0) && Witnessed(g, layer0)
    ensures Grows(layer0, layer) && Witnessed(g, layer)
    ensures EntryLifted(before, layer, c, |c.dependsOn|)
    ensures changed <==> layer != layer0
  {
    layer, changed := layer0, false;
    for j := 0 to |c.dependsOn|
      invariant EntrySoFar(g, c, before, layer0, layer, changed, j)
    {
      var dep := c.dependsOn[j];
      EntryStep(g, c, before, layer0, layer, changed, j);
      if dep in layer && layer[dep] < layer[c.name] + 1 {
        layer := layer[dep := layer[c.name] + 1];
        changed := true;
      }
    }
  }

  /** The dependencies of `c` that are drawn at all are edges of `g`. */
  ghost predicate EntryEdges(g: Graph, c: ContainerConfig, layer: Layers) {
    forall b :: b in c.dependsOn && b in layer ==> Edge(g, c.name, b)
  }

  ghost predicate EntrySoFar(g: Graph, c: ContainerConfig, before: Layers, layer0: Layers, layer: Layers,
                             changed: bool, j: nat)
    requires j <= |c.dependsOn|
  {
    && Grows(layer0, layer) && Witnessed(g, layer)
    && EntryLifted(before, layer, c, j)
    && (changed <==> layer != layer0)
  }

  lemma EntryStep(g: Graph, c: ContainerConfig, before: Layers, layer0: Layers, layer: Layers, changed: bool, j: nat)
    requires c.name in layer0 && EntryEdges(g, c, layer0) && Grows(before, layer0)
    requires j < |c.dependsOn| && EntrySoFar(g, c, before, layer0, layer, changed, j)
    ensures
      var dep := c.dependsOn[j];
      if dep in layer && layer[dep] < layer[c.name] + 1 then
        EntrySoFar(g, c, before, layer0, layer[dep := layer[c.name] + 1], true, j + 1)
      else
        EntrySoFar(g, c, before, layer0, layer, changed, j + 1)
  {
    var dep := c.dependsOn[j];
    if dep in layer && layer[dep] < layer[c.name] + 1 {
      var after := layer[dep := layer[c.name] + 1];
      LiftKeepsWitness(g, layer, c.name, dep);
      assert layer0[dep] < after[dep];
      forall k | 0 <= k < j + 1 && c.name in before && c.dependsOn[k] in after
        ensures after[c.dependsOn[k]] >= before[c.name] + 1 {}
    }
  }

  lemma ExtendPath(g: Graph, a: string, n: nat, b: string)
    requires HasPath(g, a, n) && Edge(g, a, b)
    ensures HasPath(g, b, n + 1)
  {
    var p :| EndsAt(g, p, a) && |p| - 1 == n;
    var q := p + [b];
    forall i | 0 <= i < |q| - 1 ensures Edge(g, q[i], q[i + 1]) {
      if i < |p| - 1 { assert Edge(g, p[i], p[i + 1]); }
    }
    assert EndsAt(g, q, b);
  }

  lemma LiftKeepsWitness(g: Graph, layer: Layers, a: string, b: string)
    requires Witnessed(g, layer) && a in layer && b in layer && Edge(g, a, b)
    ensures Witnessed(g, layer[b := layer[a] + 1])
  {
    ExtendPath(g, a, layer[a], b);
  }

  ghost predicate EntriesLifted(cs: seq<ContainerConfig>, before: Layers, layer: Layers, i: nat)
    requires i <= |cs|
  {
    forall k :: 0 <= k < i ==> EntryLifted(before, layer, cs[k], |cs[k].dependsOn|)
  }

  method OnePass(cs: seq<ContainerConfig>, before: Layers) returns (layer: Layers, changed: bool)
    requires before.Keys == Names(cs) && Witnessed(Drawn(cs), before)
    ensures Lifts(Drawn(cs), before, layer) && Witnessed(Drawn(cs), layer)
    ensures changed <==> layer != before
  {
    hide HasPath, Drawn;
    ghost var g := Drawn(cs);
    layer, changed := before, false;
    for i := 0 to |cs|
      invariant Grows(before, layer) && Witnessed(g, layer)
      invariant EntriesLifted(cs, before, layer, i)
      invariant changed <==> layer != before
    {
      EntryIsDrawn(cs, i, layer);
      var now := layer;
      var ch;
      layer, ch := RelaxEntry(g, cs[i], now, before);
      GrowsOn(before, now, layer);
      StillLifted(cs, before, now, layer, i);
      changed := changed || ch;
    }
    AllLifted(cs, before, layer);
  }

  lemma EntryIsDrawn(cs: seq<ContainerConfig>, i: nat, layer: Layers)
    requires i < |cs| && layer.Keys == Names(cs)
    ensures cs[i].name in layer && EntryEdges(Drawn(cs), cs[i], layer)
  {}

  lemma StillLifted(cs: seq<ContainerConfig>, before: Layers, now: Layers, layer: Layers, i: nat)
    requires i < |cs| && Grows(now, layer) && EntriesLifted(cs, before, now, i)
    requires EntryLifted(before, layer, cs[i], |cs[i].dependsOn|)
    ensures EntriesLifted(cs, before, layer, i + 1)
  {}

  lemma GrowsOn(a: Layers, b: Layers, c: Layers)
    requires Grows(a, b) && Grows(b, c)
    ensures Grows(a, c) && (a == c <==> a == b && b == c)
  {}

  lemma AllLifted(cs: seq<ContainerConfig>, before: Layers, layer: Layers)
    requires before.Keys == Names(cs) && Grows(before, layer) && EntriesLifted(cs, before, layer, |cs|)
    ensures Lifts(Drawn(cs), before, layer)
  {}

  // ---------------------------------------------------------------- the fixpoint

  lemma PassCoversMore(g: Graph, before: Layers, after: Layers, k: nat)
    requires Lifts(g, before, after) && Covers(g, before, k) && before.Keys == g.Keys
    ensures Covers(g, after, k + 1)
  {
    forall v, p | v in after && EndsAt(g, p, v) && |p| - 1 <= k + 1 ensures |p| - 1 <= after[v] {
      if |p| > 1 {
        var q := p[..|p| - 1];
        var a := q[|q| - 1];
        assert Edge(g, p[|p| - 2], p[|p| - 2 + 1]);
        assert EndsAt(g, q, a) by {
          forall i | 0 <= i < |q| - 1 ensures Edge(g, q[i], q[i + 1]) { assert Edge(g, p[i], p[i + 1]); }
        }
        assert |q| - 1 <= before[a];
      }
    }
  }

  lemma {:induction false} DistinctFits(s: seq<string>, names: set<string>)
    requires Distinct(s) && forall x :: x in s ==> x in names
    ensures |s| <= |names|
  {
    if s != [] {
      var last, rest := s[|s| - 1], s[..|s| - 1];
      assert last !in rest;
      DistinctFits(rest, names - {last});
    }
  }

  lemma {:induction false} FewNames(cs: seq<ContainerConfig>)
    ensures |Names(cs)| <= |cs|
  {
    if cs != [] {
      FewNames(cs[..|cs| - 1]);
      assert Names(cs) == Names(cs[..|cs| - 1]) + {cs[|cs| - 1].name};
    }
  }

  lemma AcyclicPathIsDistinct(g: Graph, p: seq<string>)
    requires Acyclic(g) && IsPath(g, p)
    ensures Distinct(p)
  {
    forall i, j | 0 <= i < j < |p| ensures p[i] != p[j] {
      if p[i] == p[j] { LoopIsCycle(g, p, i, j); }
    }
  }

  lemma LoopIsCycle(g: Graph, p: seq<string>, i: nat, j: nat)
    requires IsPath(g, p) && i < j < |p| && p[i] == p[j]
    ensures OnCycle(g, p[i])
  {
    SubPath(g, p, i, j);
    assert IsCycle(g, p[i..j + 1]);
  }

  lemma {:induction false} PathInGraph(cs: seq<ContainerConfig>, p: seq<string>, i: nat)
    requires IsPath(Drawn(cs), p) && p[0] in Names(cs) && i < |p|
    ensures p[i] in Names(cs)
  {
    if i > 0 { assert Edge(Drawn(cs), p[i - 1], p[i - 1 + 1]); }
  }

  /** An acyclic path visits no node twice. */
  lemma AcyclicPathsAreShort(cs: seq<ContainerConfig>, p: seq<string>, v: string)
    requires Acyclic(Drawn(cs)) && EndsAt(Drawn(cs), p, v)
    ensures |p| <= |cs|
  {
    AcyclicPathIsDistinct(Drawn(cs), p);
    forall i | 0 <= i < |p| ensures p[i] in Names(cs) { PathInGraph(cs, p, i); }
    DistinctFits(p, Names(cs));
    FewNames(cs);
  }

  /** Acyclic or not: in an acyclic graph no path has more than `n` nodes. */
  ghost predicate PathsFit(g: Graph, n: nat) {
    Acyclic(g) ==> forall p, v :: EndsAt(g, p, v) ==> |p| <= n
  }

  lemma DrawnPathsFit(cs: seq<ContainerConfig>)
    ensures PathsFit(Drawn(cs), |cs|)
  {
    if Acyclic(Drawn(cs)) {
      forall p, v | EndsAt(Drawn(cs), p, v) ensures |p| <= |cs| { AcyclicPathsAreShort(cs, p, v); }
    }
  }

  /** Once every acyclic path is covered a pass changes nothing. */
  lemma CoveredIsFixed(g: Graph, n: nat, before: Layers, after: Layers, k: nat)
    requires PathsFit(g, n) && Acyclic(g) && Covers(g, before, k) && k + 1 >= n
    requires Grows(before, after) && Witnessed(g, after)
    ensures after == before
  {}

  lemma {:induction false} Climbs(g: Graph, layer: Layers, p: seq<string>, i: nat)
    requires Lifts(g, layer, layer) && IsPath(g, p) && p[0] in layer && i < |p|
    ensures p[i] in layer && layer[p[i]] >= layer[p[0]] + i
  {
    if i > 0 {
      Climbs(g, layer, p, i - 1);
      assert Edge(g, p[i - 1], p[i - 1 + 1]);
    }
  }

  lemma FixpointIsAcyclic(g: Graph, layer: Layers)
    requires layer.Keys == g.Keys && Lifts(g, layer, layer)
    ensures Acyclic(g)
  {
    forall a ensures !OnCycle(g, a) {
      if OnCycle(g, a) {
        var p :| IsCycle(g, p) && p[0] == a;
        assert Edge(g, p[0], p[0 + 1]);
        Climbs(g, layer, p, |p| - 1);
      }
    }
  }

  /** A fixpoint leaves no room for a cycle, and its numbers are the longest path lengths. */
  lemma FixpointIsLongest(g: Graph, layer: Layers)
    requires layer.Keys == g.Keys && Lifts(g, layer, layer) && Witnessed(g, layer)
    ensures Acyclic(g) && forall v :: v in layer ==> IsLongest(g, v, layer[v])
  {
    FixpointIsAcyclic(g, layer);
    hide Acyclic, IsLongest, Lifts;
    forall v | v in layer ensures IsLongest(g, v, layer[v]) { LongestAtFixpoint(g, layer, v); }
  }

  lemma LongestAtFixpoint(g: Graph, layer: Layers, v: string)
    requires layer.Keys == g.Keys && Lifts(g, layer, layer) && Witnessed(g, layer) && v in layer
    ensures IsLongest(g, v, layer[v])
  {
    hide HasPath;
    forall p | EndsAt(g, p, v) ensures |p| - 1 <= layer[v] { Climbs(g, layer, p, |p| - 1); }
  }

  method ZeroLayers(cs: seq<ContainerConfig>) returns (layer: Layers)
    ensures Relaxing(Drawn(cs), |cs|, layer, true, 0)
  {
    layer := map n | n in Names(cs) :: 0;
    StartIsWitnessed(Drawn(cs), layer);
    hide HasPath, Acyclic, Lifts, Witnessed, Covers;
  }

  /** The relaxation under its cap of n + 2 passes reaches a fixpoint exactly on an acyclic graph, and
      then every layer is the length of the longest dependency path ending there. On any graph it stops. */
  method AssignLayers(cs: seq<ContainerConfig>) returns (layer: Layers, settled: bool)
    ensures layer.Keys == Names(cs)
    ensures settled <==> Acyclic(Drawn(cs))
    ensures settled ==> forall v :: v in layer ==> IsLongest(Drawn(cs), v, layer[v])
    ensures settled ==> Lifts(Drawn(cs), layer, layer)
  {
    hide *;
    ghost var g := Drawn(cs);
    DrawnPathsFit(cs);
    layer := ZeroLayers(cs);
    var changed := true;
    var maxIter := |cs| + 2;
    while changed && maxIter > 0
      invariant maxIter >= 0 && Relaxing(g, |cs|, layer, changed, |cs| + 2 - maxIter)
      decreases maxIter
    {
      RelaxingShows(g, |cs|, layer, changed, |cs| + 2 - maxIter);
      DrawnNames(cs);
      maxIter := maxIter - 1;
      ghost var before := layer;
      layer, changed := OnePass(cs, layer);
      RelaxingMore(g, |cs|, before, layer, changed, |cs| + 1 - maxIter);
    }
    settled := !changed;
    RelaxingShows(g, |cs|, layer, changed, |cs| + 2 - maxIter);
    RelaxingEnds(g, |cs|, layer, changed, |cs| + 2 - maxIter);
    DrawnNames(cs);
  }

  lemma DrawnNames(cs: seq<ContainerConfig>)
    ensures Drawn(cs).Keys == Names(cs)
  {}

  /** What holds after `passes` passes. */
  ghost predicate Relaxing(g: Graph, n: nat, layer: Layers, changed: bool, passes: int) {
    && 0 <= passes <= n + 2 && layer.Keys == g.Keys
    && Witnessed(g, layer) && Covers(g, layer, passes)
    && (!changed ==> Lifts(g, layer, layer))
    && (Acyclic(g) && changed ==> passes <= n)
  }

  lemma RelaxingShows(g: Graph, n: nat, layer: Layers, changed: bool, passes: int)
    requires Relaxing(g, n, layer, changed, passes)
    ensures layer.Keys == g.Keys && Witnessed(g, layer)
  {}

  lemma RelaxingEnds(g: Graph, n: nat, layer: Layers, changed: bool, passes: int)
    requires Relaxing(g, n, layer, changed, passes) && (changed ==> passes == n + 2)
    ensures (!changed <==> Acyclic(g))
    ensures !changed ==> Lifts(g, layer, layer) && forall v :: v in layer ==> IsLongest(g, v, layer[v])
  {
    hide HasPath, IsLongest, Acyclic, Lifts, Witnessed, Covers;
    if !changed { FixpointIsLongest(g, layer); }
  }

  lemma RelaxingMore(g: Graph, n: nat, before: Layers, layer: Layers, changed: bool, passes: nat)
    requires PathsFit(g, n) && Relaxing(g, n, before, true, passes) && passes <= n + 1
    requires Lifts(g, before, layer) && Witnessed(g, layer) && (changed <==> layer != before)
    ensures Relaxing(g, n, layer, changed, passes + 1)
  {
    hide HasPath, IsPath, EndsAt, Acyclic, Covers, Witnessed, PathsFit;
    PassCoversMore(g, before, layer, passes);
    if Acyclic(g) && passes + 1 >= n { CoveredIsFixed(g, n, before, layer, passes); }
  }

  lemma StartIsWitnessed(g: Graph, layer: Layers)
    requires layer.Keys == g.Keys && forall v :: v in layer ==> layer[v] == 0
    ensures Witnessed(g, layer) && Covers(g, layer, 0)
  {
    forall v | v in layer ensures HasPath(g, v, 0) { assert EndsAt(g, [v], v); }
  }

  // ---------------------------------------------------------------- node positions

  const NODE_W := 164
  const NODE_H := 52
  const H_GAP := 100
  const V_GAP := 20
  const PAD := 40

  datatype Point = Point(x: int, y: real)

  type Columns = map<nat, seq<string>>

  function Column(byLayer: Columns, l: nat): seq<string> { if l in byLayer then byLayer[l] else [] }

  ghost predicate DistinctNames(cs: seq<ContainerConfig>) {
    forall i, j :: 0 <= i < j < |cs| ==> cs[i].name != cs[j].name
  }

  /** Each name stands in the column of its layer, and no column is empty. */
  ghost predicate Sorted(cs: seq<ContainerConfig>, layer: Layers, byLayer: Columns) {
    && (forall c :: c in cs ==> c.name in layer && c.name in Column(byLayer, layer[c.name]))
    && (forall l, n :: l in byLayer && n in byLayer[l] ==> n in layer && layer[n] == l)
    && (forall l :: l in byLayer ==> byLayer[l] != [])
  }

  /** The names of layer `l` in list order. */
  function ColumnOf(cs: seq<ContainerConfig>, layer: Layers, l: nat): seq<string> {
    if cs == [] then []
    else
      var n := cs[|cs| - 1].name;
      ColumnOf(cs[..|cs| - 1], layer, l) + if n in layer && layer[n] == l then [n] else []
  }

  ghost predicate InListOrder(cs: seq<ContainerConfig>, layer: Layers, byLayer: Columns) {
    forall l :: Column(byLayer, l) == ColumnOf(cs, layer, l)
  }

  lemma ColumnGrows(cs: seq<ContainerConfig>, i: nat, layer: Layers, byLayer: Columns)
    requires i < |cs| && cs[i].name in layer && InListOrder(cs[..i], layer, byLayer)
    ensures
      var l := layer[cs[i].name];
      InListOrder(cs[..i + 1], layer, byLayer[l := Column(byLayer, l) + [cs[i].name]])
  {
    var l := layer[cs[i].name];
    var more := byLayer[l := Column(byLayer, l) + [cs[i].name]];
    assert cs[..i + 1][..i] == cs[..i];
    forall k ensures Column(more, k) == ColumnOf(cs[..i + 1], layer, k) {
      assert Column(byLayer, k) == ColumnOf(cs[..i], layer, k);
    }
  }

  lemma SortedGrows(cs: seq<ContainerConfig>, i: nat, layer: Layers, byLayer: Columns)
    requires i < |cs| && cs[i].name in layer && Sorted(cs[..i], layer, byLayer)
    ensures
      var l := layer[cs[i].name];
      Sorted(cs[..i + 1], layer, byLayer[l := Column(byLayer, l) + [cs[i].name]])
  {
    var l := layer[cs[i].name];
    var more := byLayer[l := Column(byLayer, l) + [cs[i].name]];
    forall c | c in cs[..i + 1] ensures c.name in layer && c.name in Column(more, layer[c.name]) {
      if c in cs[..i] { assert c.name in Column(byLayer, layer[c.name]); }
    }
  }

  method GroupByLayer(cs: seq<ContainerConfig>, layer: Layers) returns (byLayer: Columns)
    requires layer.Keys == Names(cs)
    ensures Sorted(cs, layer, byLayer)
    ensures InListOrder(cs, layer, byLayer)
  {
    byLayer := map[];
    assert Sorted(cs[..0], layer, map[]) && InListOrder(cs[..0], layer, map[]);
    hide Sorted, InListOrder, ColumnOf;
    for i := 0 to |cs|
      invariant Sorted(cs[..i], layer, byLayer) && InListOrder(cs[..i], layer, byLayer)
    {
      assert cs[i].name in Names(cs);
      var l := layer[cs[i].name];
      SortedGrows(cs, i, layer, byLayer);
      ColumnGrows(cs, i, layer, byLayer);
      byLayer := byLayer[l := Column(byLayer, l) + [cs[i].name]];
    }
    assert cs[..|cs|] == cs;
  }

  method MaxLayer(byLayer: Columns) returns (m: nat)
    requires byLayer != map[]
    ensures m in byLayer && forall l :: l in byLayer ==> l <= m
  {
    m :| m in byLayer;
    var todo := byLayer.Keys;
    while todo != {}
      invariant todo <= byLayer.Keys && m in byLayer
      invariant forall l :: l in byLayer && l !in todo ==> l <= m
    {
      var l :| l in todo;
      if l > m { m := l; }
      todo := todo - {l};
    }
  }

  method MaxColumn(byLayer: Columns) returns (m: nat)
    ensures forall l :: l in byLayer ==> |byLayer[l]| <= m
    ensures byLayer != map[] ==> exists l :: l in byLayer && |byLayer[l]| == m
  {
    m := 0;
    var todo := byLayer.Keys;
    while todo != {}
      invariant todo <= byLayer.Keys
      invariant forall l :: l in byLayer && l !in todo ==> |byLayer[l]| <= m
      invariant m == 0 || exists l :: l in byLayer && |byLayer[l]| == m
    {
      var l :| l in todo;
      if |byLayer[l]| > m { m := |byLayer[l]|; }
      todo := todo - {l};
    }
  }

  /** The `i`-th of `n` nodes in column `l`, the column centred in a canvas of height `totalH`. */
  function PointOf(l: nat, i: nat, n: nat, totalH: int): Point {
    var groupH := n * (NODE_H + V_GAP) - V_GAP;
    Point(PAD + l * (NODE_W + H_GAP), (totalH - groupH) as real / 2.0 + (i * (NODE_H + V_GAP)) as real)
  }

  ghost predicate Positioned(byLayer: Columns, totalH: int, name: string, p: Point) {
    exists l, i :: l in byLayer && 0 <= i < |byLayer[l]| && byLayer[l][i] == name
          && p == PointOf(l, i, |byLayer[l]|, totalH)
  }

  predicate InsideCanvas(p: Point, totalW: int, totalH: int) {
    && PAD <= p.x && p.x + NODE_W + PAD <= totalW
    && PAD as real <= p.y && p.y + (NODE_H + PAD) as real <= totalH as real
  }

  /** The boxes keep a full gap in one direction. */
  predicate Apart(p: Point, q: Point) {
    || p.x + NODE_W + H_GAP <= q.x || q.x + NODE_W + H_GAP <= p.x
    || p.y + (NODE_H + V_GAP) as real <= q.y || q.y + (NODE_H + V_GAP) as real <= p.y
  }

  /** Every node has a place inside the canvas, no two boxes overlap, and on an acyclic graph every
      edge runs from left to right across a full gap. */
  method ComputeLayout(cs: seq<ContainerConfig>) returns (pos: map<string, Point>, totalW: int, totalH: int)
    requires cs != []
    ensures pos.Keys == Names(cs)
    ensures forall n :: n in pos ==> InsideCanvas(pos[n], totalW, totalH)
    ensures forall n, m :: n in pos && m in pos && n != m ==> Apart(pos[n], pos[m])
    ensures Acyclic(Drawn(cs)) ==> forall a, b :: Edge(Drawn(cs), a, b) ==>
              a in pos && b in pos && pos[a].x + NODE_W + H_GAP <= pos[b].x
    ensures Acyclic(Drawn(cs)) ==>
              forall n, k: nat :: n in pos && IsLongest(Drawn(cs), n, k) ==> pos[n].x == 40 + 264 * k
    ensures exists n :: n in pos && pos[n].x + 204 == totalW
    ensures DistinctNames(cs) ==> NeatColumns(cs, pos, totalH)
  {
    hide IsLongest, Acyclic, Drawn, Positioned, Apart, InsideCanvas, Sorted, Names, Lifts, ColumnOf, NeatColumns;
    var layer, settled := AssignLayers(cs);
    var byLayer := GroupByLayer(cs, layer);
    FirstHasColumn(cs, layer, byLayer);
    var numLayers := MaxLayer(byLayer);
    numLayers := numLayers + 1;
    var maxNodes := MaxColumn(byLayer);
    totalW := numLayers * (NODE_W + H_GAP) - H_GAP + PAD * 2;
    totalH := maxNodes * (NODE_H + V_GAP) - V_GAP + PAD * 2;
    pos := PlaceColumns(byLayer, totalH);
    EveryNamePlaced(cs, layer, byLayer, totalH, pos);
    forall n | n in pos ensures InsideCanvas(pos[n], totalW, totalH) {
      FitsCanvas(byLayer, numLayers, maxNodes, n, pos[n]);
    }
    forall n, m | n in pos && m in pos && n != m ensures Apart(pos[n], pos[m]) {
      BoxesApart(byLayer, totalH, n, pos[n], m, pos[m]);
    }
    if settled {
      EdgesRunRight(Drawn(cs), layer, pos);
      LayersAreColumns(Drawn(cs), layer, pos);
    }
    LastColumnTouches(cs, layer, byLayer, numLayers - 1, pos);
    if DistinctNames(cs) { ColumnsAreNeat(cs, layer, byLayer, maxNodes, pos); }
  }

  lemma LayersAreColumns(g: Graph, layer: Layers, pos: map<string, Point>)
    requires pos.Keys == layer.Keys && forall n :: n in pos ==> pos[n].x == PAD + layer[n] * (NODE_W + H_GAP)
    requires forall n :: n in layer ==> IsLongest(g, n, layer[n])
    ensures forall n, k: nat :: n in pos && IsLongest(g, n, k) ==> pos[n].x == 40 + 264 * k
  {
    forall n, k: nat | n in pos && IsLongest(g, n, k) ensures k == layer[n] {
      var p :| EndsAt(g, p, n) && |p| - 1 == k;
      var q :| EndsAt(g, q, n) && |q| - 1 == layer[n];
    }
  }

  lemma LastColumnTouches(cs: seq<ContainerConfig>, layer: Layers, byLayer: Columns, last: nat, pos: map<string, Point>)
    requires Sorted(cs, layer, byLayer) && last in byLayer && pos.Keys == layer.Keys
    requires forall n :: n in pos ==> pos[n].x == PAD + layer[n] * (NODE_W + H_GAP)
    ensures exists n :: n in pos && pos[n].x + 204 == (last + 1) * (NODE_W + H_GAP) - H_GAP + PAD * 2
  {
    var n := byLayer[last][0];
    assert n in byLayer[last] && layer[n] == last;
    assert pos[n].x + 204 == (last + 1) * (NODE_W + H_GAP) - H_GAP + PAD * 2;
  }

  /** Boxes of one column stand in list order, at least 72 apart. */
  ghost predicate InOrder(cs: seq<ContainerConfig>, pos: map<string, Point>) {
    && (forall c :: c in cs ==> c.name in pos)
    && (forall i, j :: 0 <= i < j < |cs| && pos[cs[i].name].x == pos[cs[j].name].x ==>
          pos[cs[i].name].y + 72.0 <= pos[cs[j].name].y)
  }

  /** Each column is mirrored about the middle of the canvas. */
  ghost predicate Centred(pos: map<string, Point>, totalH: int) {
    forall n :: n in pos ==>
      exists m :: m in pos && pos[m].x == pos[n].x && pos[m].y + pos[n].y + 52.0 == totalH as real
  }

  /** And the fullest column begins at the upper margin. */
  ghost predicate NeatColumns(cs: seq<ContainerConfig>, pos: map<string, Point>, totalH: int) {
    InOrder(cs, pos) && Centred(pos, totalH) && exists n :: n in pos && pos[n].y == 40.0
  }

  lemma {:induction false} ColumnMembers(cs: seq<ContainerConfig>, layer: Layers, l: nat, n: string)
    ensures n in ColumnOf(cs, layer, l) <==> n in layer && layer[n] == l && exists c :: c in cs && c.name == n
  {
    if cs != [] {
      ColumnMembers(cs[..|cs| - 1], layer, l, n);
      assert cs == cs[..|cs| - 1] + [cs[|cs| - 1]];
    }
  }

  lemma {:induction false} ColumnIsDistinct(cs: seq<ContainerConfig>, layer: Layers, l: nat)
    requires DistinctNames(cs)
    ensures Distinct(ColumnOf(cs, layer, l))
  {
    if cs != [] {
      var rest := cs[..|cs| - 1];
      ColumnIsDistinct(rest, layer, l);
      ColumnMembers(rest, layer, l, cs[|cs| - 1].name);
    }
  }

  lemma {:induction false} ColumnKeepsOrder(cs: seq<ContainerConfig>, layer: Layers, l: nat, i: nat, j: nat)
    returns (a: nat, b: nat)
    requires i < j < |cs| && cs[i].name in layer && cs[j].name in layer
    requires layer[cs[i].name] == l && layer[cs[j].name] == l
    ensures a < b < |ColumnOf(cs, layer, l)|
    ensures ColumnOf(cs, layer, l)[a] == cs[i].name && ColumnOf(cs, layer, l)[b] == cs[j].name
  {
    var rest := cs[..|cs| - 1];
    if j < |rest| {
      a, b := ColumnKeepsOrder(rest, layer, l, i, j);
    } else {
      ColumnMembers(rest, layer, l, cs[i].name);
      assert rest[i] in rest;
      a :| 0 <= a < |ColumnOf(rest, layer, l)| && ColumnOf(rest, layer, l)[a] == cs[i].name;
      b := |ColumnOf(rest, layer, l)|;
    }
  }

  lemma ColumnIsLayer(cs: seq<ContainerConfig>, layer: Layers, byLayer: Columns, l: nat, n: string)
    requires Sorted(cs, layer, byLayer) && l in byLayer && n in byLayer[l]
    ensures n in layer && layer[n] == l
  {}

  /** Without repeated names every box is where its place in its column puts it. */
  lemma BoxAt(cs: seq<ContainerConfig>, layer: Layers, byLayer: Columns, totalH: int, pos: map<string, Point>,
              l: nat, i: nat)
    requires Sorted(cs, layer, byLayer) && l in byLayer && i < |byLayer[l]| && Distinct(byLayer[l])
    requires byLayer[l][i] in pos && Positioned(byLayer, totalH, byLayer[l][i], pos[byLayer[l][i]])
    ensures pos[byLayer[l][i]] == PointOf(l, i, |byLayer[l]|, totalH)
  {
    var n := byLayer[l][i];
    var k, j :| k in byLayer && 0 <= j < |byLayer[k]| && byLayer[k][j] == n
                && pos[n] == PointOf(k, j, |byLayer[k]|, totalH);
    ColumnIsLayer(cs, layer, byLayer, k, n);
    ColumnIsLayer(cs, layer, byLayer, l, n);
  }

  lemma ColumnsAreNeat(cs: seq<ContainerConfig>, layer: Layers, byLayer: Columns, maxNodes: nat,
                       pos: map<string, Point>)
    requires DistinctNames(cs)
    requires Sorted(cs, layer, byLayer) && InListOrder(cs, layer, byLayer)
    requires pos.Keys == layer.Keys && layer.Keys == Names(cs)
    requires forall n :: n in pos ==> Positioned(byLayer, maxNodes * (NODE_H + V_GAP) - V_GAP + PAD * 2, n, pos[n])
    requires exists l :: l in byLayer && |byLayer[l]| == maxNodes
    ensures NeatColumns(cs, pos, maxNodes * (NODE_H + V_GAP) - V_GAP + PAD * 2)
  {
    var totalH := maxNodes * (NODE_H + V_GAP) - V_GAP + PAD * 2;
    hide PointOf, Positioned, BoxesPlaced, InListOrder, DistinctNames;
    AllBoxesPlaced(cs, layer, byLayer, totalH, pos);
    FullestColumnIsFirst(byLayer, maxNodes, pos);
    hide Sorted, InOrder, Centred;
    ColumnsInOrder(cs, layer, byLayer, totalH, pos);
    ColumnsMirrored(cs, layer, byLayer, totalH, pos);
  }

  lemma AllBoxesPlaced(cs: seq<ContainerConfig>, layer: Layers, byLayer: Columns, totalH: int, pos: map<string, Point>)
    requires DistinctNames(cs) && Sorted(cs, layer, byLayer) && InListOrder(cs, layer, byLayer)
    requires pos.Keys == layer.Keys && forall n :: n in pos ==> Positioned(byLayer, totalH, n, pos[n])
    ensures BoxesPlaced(byLayer, totalH, pos)
  {
    forall l, i | l in byLayer && 0 <= i < |byLayer[l]|
      ensures byLayer[l][i] in pos && pos[byLayer[l][i]] == PointOf(l, i, |byLayer[l]|, totalH)
    {
      hide ColumnOf, PointOf, Positioned, DistinctNames, Distinct;
      ColumnIsDistinct(cs, layer, l);
      assert Column(byLayer, l) == byLayer[l] && byLayer[l][i] in byLayer[l];
      ColumnIsLayer(cs, layer, byLayer, l, byLayer[l][i]);
      hide Sorted, InListOrder, Column;
      BoxAt(cs, layer, byLayer, totalH, pos, l, i);
    }
  }

  lemma FullestColumnIsFirst(byLayer: Columns, maxNodes: nat, pos: map<string, Point>)
    requires BoxesPlaced(byLayer, maxNodes * (NODE_H + V_GAP) - V_GAP + PAD * 2, pos)
    requires exists l :: l in byLayer && |byLayer[l]| == maxNodes
    requires forall l :: l in byLayer ==> byLayer[l] != []
    ensures exists n :: n in pos && pos[n].y == 40.0
  {
    var l :| l in byLayer && |byLayer[l]| == maxNodes;
    assert pos[byLayer[l][0]].y == 40.0;
  }

  ghost predicate BoxesPlaced(byLayer: Columns, totalH: int, pos: map<string, Point>) {
    forall l, i :: l in byLayer && 0 <= i < |byLayer[l]| ==>
      byLayer[l][i] in pos && pos[byLayer[l][i]] == PointOf(l, i, |byLayer[l]|, totalH)
  }

  lemma ColumnsInOrder(cs: seq<ContainerConfig>, layer: Layers, byLayer: Columns, totalH: int, pos: map<string, Point>)
    requires Sorted(cs, layer, byLayer) && InListOrder(cs, layer, byLayer)
    requires pos.Keys == layer.Keys && layer.Keys == Names(cs) && BoxesPlaced(byLayer, totalH, pos)
    ensures InOrder(cs, pos)
  {
    forall i, j | 0 <= i < j < |cs| && pos[cs[i].name].x == pos[cs[j].name].x
      ensures pos[cs[i].name].y + 72.0 <= pos[cs[j].name].y
    {
      PairInOrder(cs, layer, byLayer, totalH, pos, i, j);
    }
  }

  lemma PairInOrder(cs: seq<ContainerConfig>, layer: Layers, byLayer: Columns, totalH: int, pos: map<string, Point>,
                    i: nat, j: nat)
    requires Sorted(cs, layer, byLayer) && InListOrder(cs, layer, byLayer) && BoxesPlaced(byLayer, totalH, pos)
    requires i < j < |cs| && cs[i].name in pos && cs[j].name in pos && pos[cs[i].name].x == pos[cs[j].name].x
    ensures pos[cs[i].name].y + 72.0 <= pos[cs[j].name].y
  {
    hide PointOf, Sorted, ColumnOf;
    var p := InColumn(cs, layer, byLayer, totalH, pos, cs[i].name);
    var q := InColumn(cs, layer, byLayer, totalH, pos, cs[j].name);
    var l, m := layer[cs[i].name], layer[cs[j].name];
    SameColumn(l, p, |byLayer[l]|, m, q, |byLayer[m]|, totalH);
    var a, b := ColumnKeepsOrder(cs, layer, l, i, j);
    assert Column(byLayer, l) == byLayer[l];
    hide InListOrder, Column;
    LowerInColumn(l, a, b, |byLayer[l]|, totalH);
  }

  lemma SameColumn(l: nat, i: nat, n: nat, m: nat, j: nat, k: nat, totalH: int)
    requires PointOf(l, i, n, totalH).x == PointOf(m, j, k, totalH).x
    ensures l == m
  {}

  lemma LowerInColumn(l: nat, a: nat, b: nat, n: nat, totalH: int)
    requires a < b
    ensures PointOf(l, a, n, totalH).y + 72.0 <= PointOf(l, b, n, totalH).y
  {}

  lemma MirrorInColumn(l: nat, i: nat, n: nat, totalH: int)
    requires i < n
    ensures PointOf(l, n - 1 - i, n, totalH).x == PointOf(l, i, n, totalH).x
    ensures PointOf(l, n - 1 - i, n, totalH).y + PointOf(l, i, n, totalH).y + 52.0 == totalH as real
  {}

  lemma InColumn(cs: seq<ContainerConfig>, layer: Layers, byLayer: Columns, totalH: int, pos: map<string, Point>,
                 n: string) returns (i: nat)
    requires Sorted(cs, layer, byLayer) && n in Names(cs) && BoxesPlaced(byLayer, totalH, pos)
    ensures n in layer && layer[n] in byLayer && i < |byLayer[layer[n]]| && byLayer[layer[n]][i] == n
    ensures n in pos && pos[n] == PointOf(layer[n], i, |byLayer[layer[n]]|, totalH)
  {
    var c :| c in cs && c.name == n;
    assert n in Column(byLayer, layer[n]);
    i :| 0 <= i < |byLayer[layer[n]]| && byLayer[layer[n]][i] == n;
  }

  lemma ColumnsMirrored(cs: seq<ContainerConfig>, layer: Layers, byLayer: Columns, totalH: int, pos: map<string, Point>)
    requires Sorted(cs, layer, byLayer) && BoxesPlaced(byLayer, totalH, pos) && pos.Keys == Names(cs)
    ensures Centred(pos, totalH)
  {
    forall n | n in pos
      ensures exists m :: m in pos && pos[m].x == pos[n].x && pos[m].y + pos[n].y + 52.0 == totalH as real
    {
      hide PointOf, Sorted, Centred;
      var i := InColumn(cs, layer, byLayer, totalH, pos, n);
      var col := byLayer[layer[n]];
      var m := col[|col| - 1 - i];
      MirrorInColumn(layer[n], i, |col|, totalH);
      assert pos[m] == PointOf(layer[n], |col| - 1 - i, |col|, totalH);
    }
  }

  lemma FirstHasColumn(cs: seq<ContainerConfig>, layer: Layers, byLayer: Columns)
    requires cs != [] && Sorted(cs, layer, byLayer)
    ensures byLayer != map[]
  {
    assert cs[0].name in Column(byLayer, layer[cs[0].name]);
  }

  lemma EveryNamePlaced(cs: seq<ContainerConfig>, layer: Layers, byLayer: Columns, totalH: int, pos: map<string, Point>)
    requires layer.Keys == Names(cs) && Sorted(cs, layer, byLayer)
    requires forall n :: n in pos ==> Positioned(byLayer, totalH, n, pos[n])
    requires forall l, i :: l in byLayer && 0 <= i < |byLayer[l]| ==> byLayer[l][i] in pos
    ensures pos.Keys == layer.Keys
    ensures forall n :: n in pos ==> pos[n].x == PAD + layer[n] * (NODE_W + H_GAP)
  {}

  lemma EdgesRunRight(g: Graph, layer: Layers, pos: map<string, Point>)
    requires Lifts(g, layer, layer) && pos.Keys == layer.Keys
    requires forall n :: n in pos ==> pos[n].x == PAD + layer[n] * (NODE_W + H_GAP)
    ensures forall a, b :: Edge(g, a, b) ==> a in pos && b in pos && pos[a].x + NODE_W + H_GAP <= pos[b].x
  {}

  method PlaceColumns(byLayer: Columns, totalH: int) returns (pos: map<string, Point>)
    ensures forall n :: n in pos ==> Positioned(byLayer, totalH, n, pos[n])
    ensures forall l, i :: l in byLayer && 0 <= i < |byLayer[l]| ==> byLayer[l][i] in pos
  {
    pos := map[];
    var todo := byLayer.Keys;
    while todo != {}
      invariant todo <= byLayer.Keys
      invariant forall n :: n in pos ==> Positioned(byLayer, totalH, n, pos[n])
      invariant forall l, i :: l in byLayer && l !in todo && 0 <= i < |byLayer[l]| ==> byLayer[l][i] in pos
    {
      var l :| l in todo;
      var names := byLayer[l];
      ghost var was := pos;
      for i := 0 to |names|
        invariant forall n :: n in pos ==> Positioned(byLayer, totalH, n, pos[n])
        invariant forall k :: 0 <= k < i ==> names[k] in pos
        invariant was.Keys <= pos.Keys
      {
        assert Positioned(byLayer, totalH, names[i], PointOf(l, i, |names|, totalH));
        pos := pos[names[i] := PointOf(l, i, |names|, totalH)];
      }
      todo := todo - {l};
    }
  }

  lemma FitsCanvas(byLayer: Columns, numLayers: nat, maxNodes: nat, n: string, p: Point)
    requires forall l :: l in byLayer ==> l < numLayers && |byLayer[l]| <= maxNodes
    requires Positioned(byLayer, maxNodes * (NODE_H + V_GAP) - V_GAP + PAD * 2, n, p)
    ensures InsideCanvas(p, numLayers * (NODE_W + H_GAP) - H_GAP + PAD * 2,
                         maxNodes * (NODE_H + V_GAP) - V_GAP + PAD * 2)
  {}

  lemma BoxesApart(byLayer: Columns, totalH: int, n: string, p: Point, m: string, q: Point)
    requires n != m && Positioned(byLayer, totalH, n, p) && Positioned(byLayer, totalH, m, q)
    ensures Apart(p, q)
  {
    var k, i :| k in byLayer && 0 <= i < |byLayer[k]| && byLayer[k][i] == n && p == PointOf(k, i, |byLayer[k]|, totalH);
    var l, j :| l in byLayer && 0 <= j < |byLayer[l]| && byLayer[l][j] == m && q == PointOf(l, j, |byLayer[l]|, totalH);
    if k == l { assert i != j; }
  }
}
