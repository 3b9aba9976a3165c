/** A run of start calls: in which order they are made, what Docker was asked for them, and what they
    leave behind. */
module StartTrace {
  import opened Wrappers
  import opened Config
  import opened DependencyGraph
  import opened Docker
  import opened StartCall
  import opened TopoSort

  datatype EnsureError =
    | Resolution(sortError: SortError)
    | NotStarted(name: string, cause: StartError)

  /** One call of EnsureRunning and whether it returned nil. */
  datatype EnsureCall = EnsureCall(name: string, ok: bool)

  // ---------------------------------------------------------------- start traces

  /** Each container is ensured only after every transitive dependency of it was ensured successfully. */
  ghost predicate DependenciesFirst(g: Graph, calls: seq<EnsureCall>) {
    forall i, y :: 0 <= i < |calls| && Reaches(g, calls[i].name, y) && y != calls[i].name ==>
      EnsureCall(y, true) in calls[..i]
  }

  ghost predicate NothingAfterFailure(calls: seq<EnsureCall>) {
    forall i :: 0 <= i < |calls| - 1 ==> calls[i].ok
  }

  ghost predicate AllOk(calls: seq<EnsureCall>) {
    forall c :: c in calls ==> c.ok
  }

  /** Every proper transitive dependency of `name` was ensured successfully. */
  ghost predicate DepsEnsured(g: Graph, name: string, calls: seq<EnsureCall>) {
    forall y :: Reaches(g, name, y) && y != name ==> EnsureCall(y, true) in calls
  }

  /** `name` and its whole dependency closure were ensured successfully. */
  ghost predicate FullyEnsured(g: Graph, name: string, calls: seq<EnsureCall>) {
    EnsureCall(name, true) in calls && DepsEnsured(g, name, calls)
  }

  /** The calls are made along a start order of `target` that respects the declared order, each name once. */
  ghost predicate FollowsPlan(g: Graph, target: string, calls: seq<EnsureCall>) {
    target in g ==> exists plan :: IsPlan(g, target, plan) && Along(calls, plan)
  }

  ghost predicate IsPlan(g: Graph, target: string, plan: seq<string>)
    requires target in g
  {
    IsStartOrder(g, target, plan) && InDeclaredOrder(g, g[target], plan)
  }

  ghost predicate Along(calls: seq<EnsureCall>, plan: seq<string>) {
    |calls| < |plan| && forall k :: 0 <= k < |calls| ==> calls[k].name == plan[k]
  }

  lemma MoreCallsKeepDeps(g: Graph, names: seq<string>, calls: seq<EnsureCall>, more: seq<EnsureCall>)
    requires forall m :: m in names ==> DepsEnsured(g, m, calls)
    ensures forall m :: m in names ==> DepsEnsured(g, m, calls + more)
  {}

  /** Only proper dependencies of `target` are ensured. */
  ghost predicate OnlyBelow(g: Graph, target: string, calls: seq<EnsureCall>) {
    forall c :: c in calls ==> c.name != target && Reaches(g, target, c.name)
  }

  lemma EmptyTrace(g: Graph, target: string)
    ensures DependenciesFirst(g, []) && NothingAfterFailure([]) && AllOk([]) && OnlyBelow(g, target, [])
  {}

  /** The first `i` names of the plan have been dealt with, the target skipped. */
  ghost predicate DepsSoFar(g: Graph, names: seq<string>, i: nat, calls: seq<EnsureCall>) {
    && DependenciesFirst(g, calls) && AllOk(calls) && Along(calls, names)
    && |calls| == if i < |names| then i else i - 1
  }

  lemma DepsBegin(g: Graph, target: string, names: seq<string>)
    requires IsStartOrder(g, target, names)
    ensures DepsSoFar(g, names, 0, [])
  {}

  lemma DepsSkipTarget(g: Graph, target: string, names: seq<string>, i: nat, calls: seq<EnsureCall>)
    requires IsStartOrder(g, target, names) && i < |names| && names[i] == target && DepsSoFar(g, names, i, calls)
    ensures DepsSoFar(g, names, i + 1, calls)
  {}

  lemma AlongIsBelow(g: Graph, target: string, names: seq<string>, calls: seq<EnsureCall>)
    requires IsStartOrder(g, target, names) && Along(calls, names)
    ensures OnlyBelow(g, target, calls)
  {}

  lemma DepsStep(g: Graph, target: string, names: seq<string>, i: nat, calls: seq<EnsureCall>, ok: bool)
    requires IsStartOrder(g, target, names) && i < |names| && names[i] != target && DepsSoFar(g, names, i, calls)
    ensures
      var more := calls + [EnsureCall(names[i], ok)];
      && DependenciesFirst(g, more) && NothingAfterFailure(more) && Along(more, names) && OnlyBelow(g, target, more)
      && (ok ==> DepsSoFar(g, names, i + 1, more))
      && !(AllOk(more) && !ok)
  {
    hide Reaches, DependenciesFirst, OnlyBelow;
    var more := calls + [EnsureCall(names[i], ok)];
    assert i < |names| - 1;
    assert DepsEnsured(g, names[i], calls) by {
      forall y | Reaches(g, names[i], y) && y != names[i] ensures EnsureCall(y, true) in calls {
        ReachableIsEarlier(g, names, i, y);
        var k :| 0 <= k < i && names[..i][k] == y;
        assert calls[k] in calls && calls[k] == EnsureCall(y, true);
      }
    }
    TraceExtends(g, calls, names[i], ok);
    AlongIsBelow(g, target, names, more);
    assert EnsureCall(names[i], ok) in more;
  }

  lemma DepsDone(g: Graph, target: string, names: seq<string>, calls: seq<EnsureCall>)
    requires IsStartOrder(g, target, names) && DepsSoFar(g, names, |names|, calls)
    ensures DependenciesFirst(g, calls) && AllOk(calls) && NothingAfterFailure(calls) && Along(calls, names)
    ensures OnlyBelow(g, target, calls) && DepsEnsured(g, target, calls)
  {}

  lemma TracesCompose(g: Graph, a: seq<EnsureCall>, b: seq<EnsureCall>)
    requires DependenciesFirst(g, a) && DependenciesFirst(g, b) && AllOk(a) && NothingAfterFailure(b)
    ensures DependenciesFirst(g, a + b) && NothingAfterFailure(a + b)
  {
    var c := a + b;
    forall i, y | 0 <= i < |c| && Reaches(g, c[i].name, y) && y != c[i].name
      ensures EnsureCall(y, true) in c[..i]
    {
      if i < |a| {
        assert c[..i] == a[..i];
      } else {
        assert c[..i] == a + b[..i - |a|] && c[i] == b[i - |a|];
      }
    }
    forall i | 0 <= i < |c| - 1 ensures c[i].ok { assert i < |a| ==> c[i] in a; }
  }

  lemma TraceExtends(g: Graph, calls: seq<EnsureCall>, name: string, ok: bool)
    requires DependenciesFirst(g, calls) && AllOk(calls)
    requires DepsEnsured(g, name, calls)
    ensures DependenciesFirst(g, calls + [EnsureCall(name, ok)])
    ensures NothingAfterFailure(calls + [EnsureCall(name, ok)])
  {
    var c := calls + [EnsureCall(name, ok)];
    forall i, y | 0 <= i < |c| && Reaches(g, c[i].name, y) && y != c[i].name
      ensures EnsureCall(y, true) in c[..i]
    {
      if i < |calls| {
        assert c[..i] == calls[..i];
      } else {
        assert c[..i] == calls;
      }
    }
    forall i | 0 <= i < |c| - 1 ensures c[i].ok { assert c[i] in calls; }
  }

  /** A group start fails on a member that cannot be sorted, with everything so far a success,
      or on its last call. */
  ghost predicate FailureExplained(g: Graph, members: seq<string>, e: EnsureError, calls: seq<EnsureCall>) {
    match e
    case Resolution(s) => AllOk(calls) && exists m :: m in members && Explains(g, m, s)
    case NotStarted(n, _) => calls != [] && calls[|calls| - 1] == EnsureCall(n, false)
  }

  // ---------------------------------------------------------------- what a trace did

  ghost predicate ToldOk(n: string, said: seq<Answer>, ok: bool) {
    exists r :: Told(n, said, r) && ok == r.Ok?
  }

  /** The answers heard are, call by call, those of the start calls of the trace. */
  ghost predicate HeardFor(calls: seq<EnsureCall>, heard: seq<Answer>) {
    if calls == [] then heard == []
    else
      var last := calls[|calls| - 1];
      exists k :: 0 <= k <= |heard| && HeardFor(calls[..|calls| - 1], heard[..k])
                  && ToldOk(last.name, heard[k..], last.ok)
  }

  ghost predicate Named(calls: seq<EnsureCall>, n: string) { exists c :: c in calls && c.name == n }

  ghost predicate NamedOk(calls: seq<EnsureCall>, n: string) { EnsureCall(n, true) in calls }

  /** In a quiet world: whatever ran runs, whatever was ensured runs, nothing else was started. */
  ghost predicate Serves(w0: World, w: World, calls: seq<EnsureCall>) {
    && (forall n :: IsRunning(w0, n) || NamedOk(calls, n) ==> IsRunning(w, n))
    && (forall n :: IsRunning(w, n) ==> IsRunning(w0, n) || Named(calls, n))
  }

  /** Exactly the names ensured successfully carry a stamp from the time of the trace. */
  ghost predicate Stamps(a: View, b: View, calls: seq<EnsureCall>) {
    && a.clock <= b.clock
    && (forall n :: NamedOk(calls, n) ==> n in b.lastSeen && a.clock <= b.lastSeen[n] <= b.clock)
    && (forall n :: !NamedOk(calls, n) ==> Lookup(b.lastSeen, n) == Lookup(a.lastSeen, n))
  }

  /** Call `k` is the last of its name. */
  ghost predicate LastOfName(calls: seq<EnsureCall>, k: int) {
    0 <= k < |calls| && forall j :: k < j < |calls| ==> calls[j].name != calls[k].name
  }

  /** The last call of a name leaves it ready or starting, or failed; other names are left alone. */
  ghost predicate Announces(a: View, b: View, calls: seq<EnsureCall>) {
    && (forall n :: !Named(calls, n) ==> Lookup(b.startStates, n) == Lookup(a.startStates, n))
    && (forall k :: LastOfName(calls, k) ==>
          calls[k].name in b.startStates
          && var s := b.startStates[calls[k].name];
             if calls[k].ok then s == Ready || s == Starting else s.Failed?)
  }

  /** Between two moments exactly the start calls of the trace were made, with their effects. */
  ghost predicate Carried(calls: seq<EnsureCall>, a: View, b: View) {
    && a.heard <= b.heard && HeardFor(calls, b.heard[|a.heard|..])
    && (b.still ==> a.still && Serves(a.world, b.world, calls))
    && Stamps(a, b, calls) && Announces(a, b, calls)
  }

  /** One more call after its start state was set to starting. */
  lemma CarriedMore(calls: seq<EnsureCall>, n: string, r: Result<(), StartError>, said: seq<Answer>,
                    start: View, a: View, b: View)
    requires Carried(calls, start, a)
    requires Outcome(n, r, said, a.(startStates := a.startStates[n := Starting]), b)
    ensures Carried(calls + [EnsureCall(n, r.Ok?)], start, b)
  {
    CarriedOne(n, r, said, a, b);
    CarriedJoin(calls, [EnsureCall(n, r.Ok?)], start, a, b);
  }

  lemma CarriedServes(calls: seq<EnsureCall>, a: View, b: View)
    requires Carried(calls, a, b)
    ensures b.still ==> forall c :: c in calls && c.ok ==> IsRunning(b.world, c.name)
  {
    forall c | c in calls && c.ok ensures NamedOk(calls, c.name) { assert c == EnsureCall(c.name, true); }
  }

  lemma DepsServed(g: Graph, target: string, calls: seq<EnsureCall>, w: World)
    requires DepsEnsured(g, target, calls)
    ensures (forall c :: c in calls && c.ok ==> IsRunning(w, c.name)) ==>
              forall n :: Reaches(g, target, n) && n != target ==> IsRunning(w, n)
  {}

  lemma GroupServed(g: Graph, members: seq<string>, calls: seq<EnsureCall>, w: World)
    ensures (forall c :: c in calls && c.ok ==> IsRunning(w, c.name))
            && (forall m :: m in members ==> FullyEnsured(g, m, calls)) ==>
              forall m, n :: m in members && Reaches(g, m, n) ==> IsRunning(w, n)
  {}

  lemma CarriedNothing(a: View)
    ensures Carried([], a, a)
  {}

  /** What one call contributes, its start state set to starting just before. */
  lemma CarriedOne(n: string, r: Result<(), StartError>, said: seq<Answer>, a: View, b: View)
    requires Outcome(n, r, said, a.(startStates := a.startStates[n := Starting]), b)
    ensures Carried([EnsureCall(n, r.Ok?)], a, b)
  {
    assert r.Err? ==> |said| > 1;
    hide Told, ToldOk, HeardFor, Announces, Stamps, Serves, IsRunning, Booked;
    HeardOne(n, r, said);
    assert b.heard[|a.heard|..] == said;
    AnnouncesOne(n, r, said, a, b);
    StampsOne(n, r.Ok?, a, b);
    if b.still { ServesOne(n, r.Ok?, said, a, b); }
  }

  lemma AnnouncesOne(n: string, r: Result<(), StartError>, said: seq<Answer>, a: View, b: View)
    requires b.startStates == StateOf(said, n, r, a.startStates[n := Starting]) && (r.Err? ==> |said| > 1)
    ensures Announces(a, b, [EnsureCall(n, r.Ok?)])
  {
    OneName(n, r.Ok?);
    hide Named;
  }

  lemma StampsOne(n: string, ok: bool, a: View, b: View)
    requires Booked(n, ok, a.lastSeen, b.lastSeen, a.clock, b.clock)
    ensures Stamps(a, b, [EnsureCall(n, ok)])
  {
    OneName(n, ok);
    hide NamedOk;
  }

  lemma ServesOne(n: string, ok: bool, said: seq<Answer>, a: View, b: View)
    requires Raises(n, ok, said, a.(startStates := a.startStates[n := Starting]), b)
    ensures Serves(a.world, b.world, [EnsureCall(n, ok)])
  {
    OneName(n, ok);
    hide Named, NamedOk;
  }

  lemma HeardOne(n: string, r: Result<(), StartError>, said: seq<Answer>)
    requires Told(n, said, r)
    ensures HeardFor([EnsureCall(n, r.Ok?)], said)
  {
    hide Told;
    var calls := [EnsureCall(n, r.Ok?)];
    assert ToldOk(n, said, r.Ok?);
    assert calls[..0] == [] && said[..0] == [] && said[0..] == said;
  }

  lemma OneName(n: string, ok: bool)
    ensures forall m :: Named([EnsureCall(n, ok)], m) <==> m == n
    ensures forall m :: NamedOk([EnsureCall(n, ok)], m) <==> m == n && ok
  {}

  lemma {:induction false} HeardJoin(x: seq<EnsureCall>, y: seq<EnsureCall>, h: seq<Answer>, i: seq<Answer>)
    requires HeardFor(x, h) && HeardFor(y, i)
    ensures HeardFor(x + y, h + i)
    decreases |y|
  {
    hide ToldOk;
    if y == [] {
      assert x + y == x && h + i == h;
    } else {
      var last := y[|y| - 1];
      var k :| 0 <= k <= |i| && HeardFor(y[..|y| - 1], i[..k]) && ToldOk(last.name, i[k..], last.ok);
      HeardJoin(x, y[..|y| - 1], h, i[..k]);
      assert (x + y)[..|x + y| - 1] == x + y[..|y| - 1];
      assert (h + i)[..|h| + k] == h + i[..k] && (h + i)[|h| + k..] == i[k..];
      assert (x + y)[|x + y| - 1] == last;
    }
  }

  lemma NamesJoin(x: seq<EnsureCall>, y: seq<EnsureCall>)
    ensures forall n :: Named(x + y, n) <==> Named(x, n) || Named(y, n)
    ensures forall n :: NamedOk(x + y, n) <==> NamedOk(x, n) || NamedOk(y, n)
  {}

  lemma AnnouncesJoin(x: seq<EnsureCall>, y: seq<EnsureCall>, a: View, b: View, c: View)
    requires Announces(a, b, x) && Announces(b, c, y)
    ensures Announces(a, c, x + y)
  {
    NamesJoin(x, y);
    forall k | LastOfName(x + y, k)
      ensures (x + y)[k].name in c.startStates
      ensures var s := c.startStates[(x + y)[k].name];
              if (x + y)[k].ok then s == Ready || s == Starting else s.Failed?
    {
      if k < |x| {
        assert forall j :: 0 <= j < |y| ==> y[j] == (x + y)[|x| + j];
        assert forall j :: k < j < |x| ==> x[j] == (x + y)[j];
        assert LastOfName(x, k) && !Named(y, x[k].name);
        assert Lookup(c.startStates, x[k].name) == Lookup(b.startStates, x[k].name);
      } else {
        assert forall j :: k - |x| < j < |y| ==> y[j] == (x + y)[|x| + j];
        assert LastOfName(y, k - |x|);
      }
    }
  }

  lemma StampsJoin(x: seq<EnsureCall>, y: seq<EnsureCall>, a: View, b: View, c: View)
    requires Stamps(a, b, x) && Stamps(b, c, y)
    ensures Stamps(a, c, x + y)
  {
    NamesJoin(x, y);
    hide NamedOk;
    forall n | NamedOk(x + y, n) ensures n in c.lastSeen && a.clock <= c.lastSeen[n] <= c.clock {
      if !NamedOk(y, n) { assert Lookup(c.lastSeen, n) == Lookup(b.lastSeen, n); }
    }
    forall n | !NamedOk(x + y, n) ensures Lookup(c.lastSeen, n) == Lookup(a.lastSeen, n) {
      assert Lookup(c.lastSeen, n) == Lookup(b.lastSeen, n);
    }
  }

  lemma ServesJoin(x: seq<EnsureCall>, y: seq<EnsureCall>, w0: World, w1: World, w2: World)
    requires Serves(w0, w1, x) && Serves(w1, w2, y)
    ensures Serves(w0, w2, x + y)
  {
    NamesJoin(x, y);
    hide Named, NamedOk, IsRunning;
  }

  lemma CarriedJoin(x: seq<EnsureCall>, y: seq<EnsureCall>, a: View, b: View, c: View)
    requires Carried(x, a, b) && Carried(y, b, c)
    ensures Carried(x + y, a, c)
  {
    hide HeardFor, Announces, Stamps, Serves;
    AnnouncesJoin(x, y, a, b, c);
    StampsJoin(x, y, a, b, c);
    if c.still { ServesJoin(x, y, a.world, b.world, c.world); }
    HeardJoin(x, y, b.heard[|a.heard|..], c.heard[|b.heard|..]);
    assert c.heard[|a.heard|..] == b.heard[|a.heard|..] + c.heard[|b.heard|..];
  }

  /** Where the answers of the last call begin. */
  lemma LastSegment(calls: seq<EnsureCall>, heard: seq<Answer>) returns (i: nat)
    requires HeardFor(calls, heard) && calls != []
    ensures i <= |heard| && HeardFor(calls[..|calls| - 1], heard[..i])
    ensures ToldOk(calls[|calls| - 1].name, heard[i..], calls[|calls| - 1].ok)
  {
    hide ToldOk;
    var last := calls[|calls| - 1];
    i :| 0 <= i <= |heard| && HeardFor(calls[..|calls| - 1], heard[..i]) && ToldOk(last.name, heard[i..], last.ok);
  }

  /** Docker and the probes are only asked about names of the trace. */
  lemma {:induction false} OnlyCalledNamesAreAsked(calls: seq<EnsureCall>, heard: seq<Answer>, a: Answer)
    requires HeardFor(calls, heard) && a in heard
    ensures exists c :: c in calls && c.name == a.name
    decreases |calls|
  {
    var k := |calls| - 1;
    var last := calls[k];
    hide HeardFor, ToldOk;
    var i := LastSegment(calls, heard);
    LastCallAsked(last.name, heard[i..], last.ok);
    if a in heard[..i] {
      OnlyCalledNamesAreAsked(calls[..k], heard[..i], a);
    } else {
      assert heard == heard[..i] + heard[i..] && last in calls;
    }
  }

  /** A name ensured was seen running or probed ready; for one that failed a start was asked for. */
  ghost predicate AskedFor(c: EnsureCall, heard: seq<Answer>) {
    if c.ok then Inspected(c.name, Some(Running)) in heard || Probed(c.name, true) in heard
    else exists a :: a in heard && a.name == c.name && a.StartAsked?
  }

  lemma AskedForMore(c: EnsureCall, h: seq<Answer>, i: seq<Answer>)
    requires AskedFor(c, h) || AskedFor(c, i)
    ensures AskedFor(c, h + i)
  {}

  lemma {:induction false} CallsWereAsked(calls: seq<EnsureCall>, heard: seq<Answer>, c: EnsureCall)
    requires HeardFor(calls, heard) && c in calls
    ensures AskedFor(c, heard)
    decreases |calls|
  {
    var k := |calls| - 1;
    var last := calls[k];
    hide HeardFor, AskedFor, ToldOk;
    var i := LastSegment(calls, heard);
    if c == last {
      LastCallAsked(last.name, heard[i..], last.ok);
    } else {
      assert c in calls[..k];
      CallsWereAsked(calls[..k], heard[..i], c);
    }
    AskedForMore(c, heard[..i], heard[i..]);
    assert heard == heard[..i] + heard[i..];
  }

  lemma LastCallAsked(n: string, said: seq<Answer>, ok: bool)
    requires ToldOk(n, said, ok)
    ensures forall a :: a in said ==> a.name == n
    ensures AskedFor(EnsureCall(n, ok), said)
  {
    var r :| Told(n, said, r) && ok == r.Ok?;
    AnswersAreOwn(n, said, r);
    LastAnswerDecides(n, said, r);
    hide Told;
    assert said[|said| - 1] in said;
    if !ok { assert |said| > 1; }
  }

  /** What a caller finds after a trace: exactly the names ensured are stamped, with a time of the
      trace, and nothing changes for names that were not called. In a quiet world exactly what ran
      before or was ensured runs, and perhaps the one whose call failed. */
  lemma CarriedShows(calls: seq<EnsureCall>, a: View, b: View)
    requires Carried(calls, a, b)
    ensures forall c :: c in calls && c.ok ==> c.name in b.lastSeen && a.clock <= b.lastSeen[c.name] <= b.clock
    ensures forall n :: EnsureCall(n, true) !in calls ==> Lookup(b.lastSeen, n) == Lookup(a.lastSeen, n)
    ensures forall n :: EnsureCall(n, true) !in calls && EnsureCall(n, false) !in calls ==>
              Lookup(b.startStates, n) == Lookup(a.startStates, n)
    ensures b.still ==> forall c :: c in calls && c.ok ==> IsRunning(b.world, c.name)
    ensures b.still ==> forall n :: IsRunning(a.world, n) ==> IsRunning(b.world, n)
    ensures b.still ==> forall n :: EnsureCall(n, true) !in calls && EnsureCall(n, false) !in calls ==>
              (IsRunning(b.world, n) <==> IsRunning(a.world, n))
  {
    hide HeardFor, LastOfName;
    forall c | c in calls ensures c == EnsureCall(c.name, c.ok) && (c.ok ==> NamedOk(calls, c.name)) {}
  }
}
