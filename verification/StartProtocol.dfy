/** gateway/manager.go: any number of concurrent EnsureRunning calls as a step machine, against a
    daemon other parties keep changing. Stops by the idle watcher and by cron jobs take no container
    lock, so they are ordinary environment steps. */
module StartProtocol {
  import opened Wrappers
  import opened Config
  import opened Docker
  import opened StartCall

  type CallId = nat
  type LockId = nat

  /** Where one call stands. From `Holding` to `Leaving` it is inside the critical section. */
  datatype Pc =
    | Arrived
    | Waiting(lock: LockId)
    | Holding(lock: LockId)
    | Deciding(lock: LockId, blind: bool)
    | Booting(lock: LockId)
    | Leaving(lock: LockId, ok: bool)
    | Returned(ok: bool)

  predicate Critical(pc: Pc) { pc.Holding? || pc.Deciding? || pc.Booting? || pc.Leaving? }

  datatype Ensure = Ensure(name: string, pc: Pc)

  /** What happened to one container so far: successful starts, those of a container already running,
      ways out of and (by others) into the running state, and inspections without an answer. */
  datatype Tally = Tally(starts: nat, redundant: nat, departures: nat, external: nat, blind: nat)

  const ZERO := Tally(0, 0, 0, 0, 0)

  datatype State = State(
    calls: map<CallId, Ensure>,
    locks: map<string, LockId>,
    nextLock: LockId,
    held: map<LockId, CallId>,
    world: World,
    startStates: map<string, StartState>,
    tallies: map<string, Tally>)

  datatype Step =
    | Arrive(id: CallId, name: string)
    | GetLock(id: CallId)
    | Acquire(id: CallId)
    | InspectRunning(id: CallId)
    | InspectOther(id: CallId)
    | InspectError(id: CallId)
    | StartFails(id: CallId)
    | StartSucceeds(id: CallId)
    | BootFails(id: CallId, cause: StartError)
    | BootReady(id: CallId)
    | Unlock(id: CallId)
    | Environment(name: string, status: Option<Status>)
    | InitState(name: string)

  predicate IsCallStep(e: Step) { !e.Arrive? && !e.Environment? && !e.InitState? }

  function Init(w: World): State { State(map[], map[], 0, map[], w, map[], map[]) }

  function TallyOf(s: State, n: string): Tally { if n in s.tallies then s.tallies[n] else ZERO }

  function Bit(b: bool): nat { if b then 1 else 0 }

  function Moved(s: State, id: CallId, pc: Pc): State
    requires id in s.calls
  {
    s.(calls := s.calls[id := s.calls[id].(pc := pc)])
  }

  function Counted(s: State, n: string, t: Tally): State { s.(tallies := s.tallies[n := t]) }

  function Marked(s: State, n: string, st: StartState): State { s.(startStates := s.startStates[n := st]) }

  /** One step of the machine; none when it is not enabled. */
  function Apply(s: State, e: Step): Option<State> {
    match e
    case Arrive(id, name) =>
      if id in s.calls then None else Some(s.(calls := s.calls[id := Ensure(name, Arrived)]))
    case Environment(n, status) =>
      var t, was, now := TallyOf(s, n), IsRunning(s.world, n), status == Some(Running);
      var w := if status.Some? then s.world[n := status.value] else s.world - {n};
      Some(Counted(s.(world := w), n, t.(departures := t.departures + Bit(was && !now),
                                         external := t.external + Bit(!was && now))))
    case InitState(n) => Some(Marked(s, n, Starting))
    case _ =>
      if e.id !in s.calls then None else ApplyCall(s, e, s.calls[e.id].name, s.calls[e.id].pc)
  }

  /** A boot fails for want of an address, of time, or because polling finds the container down. */
  predicate BootCanFail(w: World, n: string, cause: StartError) {
    cause != StartFailed && (cause == Crashed ==> Lookup(w, n) == Some(Exited) || Lookup(w, n) == Some(Dead))
  }

  /** The steps of the call `e.id`, which is at `pc`. */
  function ApplyCall(s: State, e: Step, n: string, pc: Pc): Option<State>
    requires IsCallStep(e) && e.id in s.calls
  {
    var t := TallyOf(s, n);
    match (e, pc)
    case (GetLock(id), Arrived) =>
      if n in s.locks then Some(Moved(s, id, Waiting(s.locks[n])))
      else Some(Moved(s.(locks := s.locks[n := s.nextLock], nextLock := s.nextLock + 1), id, Waiting(s.nextLock)))
    case (Acquire(id), Waiting(l)) =>
      if l in s.held then None else Some(Moved(s.(held := s.held[l := id]), id, Holding(l)))
    case (InspectRunning(id), Holding(l)) =>
      if IsRunning(s.world, n) then Some(Moved(s, id, Leaving(l, true))) else None
    case (InspectOther(id), Holding(l)) =>
      if n in s.world && !IsRunning(s.world, n) then Some(Moved(Marked(s, n, Starting), id, Deciding(l, false)))
      else None
    case (InspectError(id), Holding(l)) =>
      Some(Moved(Counted(Marked(s, n, Starting), n, t.(blind := t.blind + 1)), id, Deciding(l, true)))
    case (StartFails(id), Deciding(l, _)) =>
      Some(Moved(Marked(s, n, Failed(Message(StartFailed))), id, Leaving(l, false)))
    case (StartSucceeds(id), Deciding(l, _)) =>
      if n !in s.world then None
      else
        var t' := t.(starts := t.starts + 1, redundant := t.redundant + Bit(IsRunning(s.world, n)));
        Some(Moved(Counted(s.(world := s.world[n := Running]), n, t'), id, Booting(l)))
    case (BootFails(id, cause), Booting(l)) =>
      if BootCanFail(s.world, n, cause) then Some(Moved(Marked(s, n, Failed(Message(cause))), id, Leaving(l, false)))
      else None
    case (BootReady(id), Booting(l)) =>
      Some(Moved(Marked(s, n, Ready), id, Leaving(l, true)))
    case (Unlock(id), Leaving(l, ok)) =>
      Some(Moved(s.(held := s.held - {l}), id, Returned(ok)))
    case _ => None
  }

  /** The state after a run; none if a step was not enabled. */
  function Run(s: State, es: seq<Step>): Option<State> {
    if es == [] then Some(s)
    else
      var before := Run(s, es[..|es| - 1]);
      if before.None? then None else Apply(before.value, es[|es| - 1])
  }

  // ---------------------------------------------------------------- the lock discipline

  predicate HasLock(pc: Pc) { !pc.Arrived? && !pc.Returned? }

  /** Mutexes are one per name and never replaced; a call holds the mutex of its own container
      exactly while it is inside the critical section. */
  ghost predicate LocksInv(s: State) { Disciplined(s.calls, s.locks, s.nextLock, s.held) }

  ghost predicate Disciplined(calls: map<CallId, Ensure>, locks: map<string, LockId>, nextLock: LockId,
                              held: map<LockId, CallId>) {
    && (forall n :: n in locks ==> locks[n] < nextLock)
    && (forall n, m :: n in locks && m in locks && locks[n] == locks[m] ==> n == m)
    && (forall id :: id in calls && HasLock(calls[id].pc) ==>
          calls[id].name in locks && locks[calls[id].name] == calls[id].pc.lock)
    && (forall id :: id in calls && Critical(calls[id].pc) ==>
          calls[id].pc.lock in held && held[calls[id].pc.lock] == id)
    && (forall l :: l in held ==> held[l] in calls && Critical(calls[held[l]].pc) && calls[held[l]].pc.lock == l)
  }

  lemma MoveInside(calls: map<CallId, Ensure>, locks: map<string, LockId>, nextLock: LockId, held: map<LockId, CallId>,
                   id: CallId, pc: Pc)
    requires Disciplined(calls, locks, nextLock, held)
    requires id in calls && Critical(calls[id].pc) && Critical(pc) && pc.lock == calls[id].pc.lock
    ensures Disciplined(calls[id := calls[id].(pc := pc)], locks, nextLock, held)
  {}

  lemma TakeReference(calls: map<CallId, Ensure>, locks: map<string, LockId>, nextLock: LockId,
                      held: map<LockId, CallId>, id: CallId)
    requires Disciplined(calls, locks, nextLock, held) && id in calls && calls[id].pc.Arrived?
    ensures calls[id].name in locks ==>
              Disciplined(calls[id := calls[id].(pc := Waiting(locks[calls[id].name]))], locks, nextLock, held)
    ensures calls[id].name !in locks ==>
              Disciplined(calls[id := calls[id].(pc := Waiting(nextLock))], locks[calls[id].name := nextLock],
                          nextLock + 1, held)
  {}

  lemma EnterSection(calls: map<CallId, Ensure>, locks: map<string, LockId>, nextLock: LockId,
                     held: map<LockId, CallId>, id: CallId)
    requires Disciplined(calls, locks, nextLock, held)
    requires id in calls && calls[id].pc.Waiting? && calls[id].pc.lock !in held
    ensures Disciplined(calls[id := calls[id].(pc := Holding(calls[id].pc.lock))], locks, nextLock,
                        held[calls[id].pc.lock := id])
  {}

  lemma LeaveSection(calls: map<CallId, Ensure>, locks: map<string, LockId>, nextLock: LockId,
                     held: map<LockId, CallId>, id: CallId, ok: bool)
    requires Disciplined(calls, locks, nextLock, held) && id in calls && Critical(calls[id].pc)
    ensures Disciplined(calls[id := calls[id].(pc := Returned(ok))], locks, nextLock, held - {calls[id].pc.lock})
  {}

  predicate StaysInside(e: Step) { IsCallStep(e) && !e.GetLock? && !e.Acquire? && !e.Unlock? }

  /** Steps inside the section touch no lock and keep the call inside. */
  lemma InsideStep(s: State, e: Step, s': State)
    requires StaysInside(e) && Apply(s, e) == Some(s')
    ensures s'.locks == s.locks && s'.nextLock == s.nextLock && s'.held == s.held
    ensures e.id in s.calls && Critical(s.calls[e.id].pc) && e.id in s'.calls && Critical(s'.calls[e.id].pc)
    ensures s'.calls[e.id].pc.lock == s.calls[e.id].pc.lock
    ensures s'.calls == s.calls[e.id := s.calls[e.id].(pc := s'.calls[e.id].pc)]
  {
    hide Message;
  }

  lemma BorderStep(s: State, e: Step, s': State)
    requires Apply(s, e) == Some(s') && IsCallStep(e) && !StaysInside(e)
    ensures e.id in s.calls && e.id in s'.calls && s'.calls == s.calls[e.id := s.calls[e.id].(pc := s'.calls[e.id].pc)]
    ensures e.GetLock? ==> s.calls[e.id].pc.Arrived? && s'.held == s.held
    ensures e.GetLock? && s.calls[e.id].name in s.locks ==>
              s'.locks == s.locks && s'.nextLock == s.nextLock
              && s'.calls[e.id].pc == Waiting(s.locks[s.calls[e.id].name])
    ensures e.GetLock? && s.calls[e.id].name !in s.locks ==>
              s'.locks == s.locks[s.calls[e.id].name := s.nextLock] && s'.nextLock == s.nextLock + 1
              && s'.calls[e.id].pc == Waiting(s.nextLock)
    ensures !e.GetLock? ==> s'.locks == s.locks && s'.nextLock == s.nextLock
    ensures e.Acquire? ==> s.calls[e.id].pc.Waiting? && s.calls[e.id].pc.lock !in s.held
                           && s'.calls[e.id].pc == Holding(s.calls[e.id].pc.lock)
                           && s'.held == s.held[s.calls[e.id].pc.lock := e.id]
    ensures e.Unlock? ==> s.calls[e.id].pc.Leaving? && s'.calls[e.id].pc == Returned(s.calls[e.id].pc.ok)
                          && s'.held == s.held - {s.calls[e.id].pc.lock}
  {
    hide Message;
  }

  lemma OutsideStep(s: State, e: Step, s': State)
    requires LocksInv(s) && Apply(s, e) == Some(s') && !IsCallStep(e)
    ensures LocksInv(s')
  {
    hide Message;
  }

  lemma LocksStep(s: State, e: Step, s': State)
    requires LocksInv(s) && Apply(s, e) == Some(s')
    ensures LocksInv(s')
  {
    if !IsCallStep(e) {
      OutsideStep(s, e, s');
    } else if StaysInside(e) {
      InsideStep(s, e, s');
      MoveInside(s.calls, s.locks, s.nextLock, s.held, e.id, s'.calls[e.id].pc);
    } else {
      BorderStep(s, e, s');
      if e.GetLock? {
        TakeReference(s.calls, s.locks, s.nextLock, s.held, e.id);
      } else if e.Acquire? {
        EnterSection(s.calls, s.locks, s.nextLock, s.held, e.id);
      } else {
        LeaveSection(s.calls, s.locks, s.nextLock, s.held, e.id, s.calls[e.id].pc.ok);
      }
    }
  }

  // ---------------------------------------------------------------- conservation

  /** 1 while the lock holder is about to start a container that runs, or that it could not inspect. */
  function Doubtful(s: State, n: string): nat {
    if n in s.locks && s.locks[n] in s.held && s.held[s.locks[n]] in s.calls then
      match s.calls[s.held[s.locks[n]]].pc
      case Deciding(_, blind) => Bit(blind || IsRunning(s.world, n))
      case _ => 0
    else 0
  }

  predicate Conserved(w0: World, s: State, n: string) {
    var t := TallyOf(s, n);
    t.starts + t.external + Bit(IsRunning(w0, n)) == t.departures + Bit(IsRunning(s.world, n)) + t.redundant
  }

  predicate Paid(s: State, n: string) {
    TallyOf(s, n).redundant + Doubtful(s, n) <= TallyOf(s, n).blind + TallyOf(s, n).external
  }

  ghost predicate Balanced(w0: World, s: State, n: string) { Conserved(w0, s, n) && Paid(s, n) }

  lemma ConservedStep(w0: World, s: State, e: Step, s': State, n: string)
    requires Conserved(w0, s, n) && Apply(s, e) == Some(s')
    ensures Conserved(w0, s', n)
  {
    hide Message, BootCanFail;
  }

  /** The container a step is about. */
  function Subject(s: State, e: Step): string
    requires IsCallStep(e) ==> e.id in s.calls
  {
    if IsCallStep(e) then s.calls[e.id].name else e.name
  }

  /** The holder of the lock of `n`, if there is one. */
  ghost predicate Holds(s: State, id: CallId, n: string) {
    id in s.calls && s.calls[id].name == n && Critical(s.calls[id].pc)
  }

  lemma DoubtfulUnmoved(s: State, s': State, n: string)
    requires LocksInv(s) && LocksInv(s')
    requires IsRunning(s'.world, n) == IsRunning(s.world, n)
    requires forall id :: Holds(s', id, n) && s'.calls[id].pc.Deciding? ==>
               Holds(s, id, n) && s.calls[id] == s'.calls[id]
    ensures Doubtful(s', n) <= Doubtful(s, n)
  {}

  /** Nothing about `n` that the account depends on got worse. */
  ghost predicate Unmoved(s: State, s': State, n: string) {
    && TallyOf(s', n).redundant == TallyOf(s, n).redundant
    && TallyOf(s', n).blind + TallyOf(s', n).external == TallyOf(s, n).blind + TallyOf(s, n).external
    && IsRunning(s'.world, n) == IsRunning(s.world, n)
    && forall id :: Holds(s', id, n) && s'.calls[id].pc.Deciding? ==> Holds(s, id, n) && s.calls[id] == s'.calls[id]
  }

  lemma AccountUnmoved(s: State, e: Step, s': State, n: string)
    requires Apply(s, e) == Some(s') && Subject(s, e) != n
    ensures TallyOf(s', n) == TallyOf(s, n) && IsRunning(s'.world, n) == IsRunning(s.world, n)
  {
    hide Message, BootCanFail;
  }

  lemma UnmovedElsewhere(s: State, e: Step, s': State, n: string)
    requires Apply(s, e) == Some(s') && Subject(s, e) != n
    ensures Unmoved(s, s', n)
  {
    AccountUnmoved(s, e, s', n);
    hide TallyOf, IsRunning, Message, BootCanFail;
  }

  lemma UnmovedOtherwise(s: State, e: Step, s': State, n: string)
    requires Apply(s, e) == Some(s')
    requires !e.InspectError? && !e.InspectOther? && !e.StartSucceeds? && !e.Environment?
    ensures Unmoved(s, s', n)
  {
    hide Message, BootCanFail;
  }

  /** The call steps that change what is paid or owed. */
  lemma PaidHere(s: State, e: Step, s': State, n: string)
    requires LocksInv(s) && LocksInv(s') && Paid(s, n) && Apply(s, e) == Some(s')
    requires e.InspectError? || e.InspectOther? || e.StartSucceeds?
    requires s.calls[e.id].name == n
    ensures Paid(s', n)
  {}

  lemma PaidEnvironment(s: State, m: string, status: Option<Status>, s': State)
    requires Paid(s, m) && Apply(s, Environment(m, status)) == Some(s')
    ensures Paid(s', m)
  {
    hide Message;
  }

  lemma BalancedStep(w0: World, s: State, e: Step, s': State, n: string)
    requires LocksInv(s) && Balanced(w0, s, n) && Apply(s, e) == Some(s')
    ensures Balanced(w0, s', n)
  {
    ConservedStep(w0, s, e, s', n);
    LocksStep(s, e, s');
    if Subject(s, e) != n {
      UnmovedElsewhere(s, e, s', n);
      DoubtfulUnmoved(s, s', n);
    } else if e.Environment? {
      PaidEnvironment(s, n, e.status, s');
    } else if e.InspectError? || e.InspectOther? || e.StartSucceeds? {
      PaidHere(s, e, s', n);
    } else {
      UnmovedOtherwise(s, e, s', n);
      DoubtfulUnmoved(s, s', n);
    }
  }

  lemma {:induction false} RunKeeps(w0: World, es: seq<Step>, s: State)
    requires Run(Init(w0), es) == Some(s)
    ensures LocksInv(s) && forall n :: Balanced(w0, s, n)
  {
    if es != [] {
      var before := Run(Init(w0), es[..|es| - 1]).value;
      RunKeeps(w0, es[..|es| - 1], before);
      LocksStep(before, es[|es| - 1], s);
      forall n ensures Balanced(w0, s, n) { BalancedStep(w0, before, es[|es| - 1], s, n); }
    }
  }

  /** Over every run, at most one call per container is inside the critical section. */
  lemma AtMostOneInside(w0: World, es: seq<Step>, s: State, a: CallId, b: CallId)
    requires Run(Init(w0), es) == Some(s)
    requires a in s.calls && b in s.calls && s.calls[a].name == s.calls[b].name
    requires forall id :: id in {a, b} ==>
               !s.calls[id].pc.Arrived? && !s.calls[id].pc.Waiting? && !s.calls[id].pc.Returned?
    ensures a == b
  {
    RunKeeps(w0, es, s);
  }

  /** Over every run: successful starts and starts by others, plus initially running, balance
      departures, plus now running, plus starts of a container that already ran; and each of those
      last is paid for by an inspection without an answer or by a start from outside. */
  lemma StartsBalanceDepartures(w0: World, es: seq<Step>, s: State, n: string)
    requires Run(Init(w0), es) == Some(s)
    ensures
      var t := TallyOf(s, n);
      && t.starts + t.external + Bit(IsRunning(w0, n)) == t.departures + Bit(IsRunning(s.world, n)) + t.redundant
      && t.redundant <= t.blind + t.external
  {
    RunKeeps(w0, es, s);
    assert Balanced(w0, s, n);
  }

  /** However many requests arrive at once: without crashes, failed inspections and outside starts the
      container is started at most once, and not at all if it ran to begin with. */
  lemma OneStartForAllRequests(w0: World, es: seq<Step>, s: State, n: string)
    requires Run(Init(w0), es) == Some(s)
    requires TallyOf(s, n).departures == 0 && TallyOf(s, n).blind == 0 && TallyOf(s, n).external == 0
    ensures TallyOf(s, n).starts <= 1 && (IsRunning(w0, n) ==> TallyOf(s, n).starts == 0)
  {
    StartsBalanceDepartures(w0, es, s, n);
  }

  // ---------------------------------------------------------------- what the tallies count

  /** The state before the last step of a run. */
  ghost function Before(w0: World, es: seq<Step>): State
    requires es != [] && Run(Init(w0), es).Some?
  {
    Run(Init(w0), es[..|es| - 1]).value
  }

  ghost function After(w0: World, es: seq<Step>): State
    requires Run(Init(w0), es).Some?
  {
    Run(Init(w0), es).value
  }

  ghost predicate Ran(s: State, n: string) { n in s.world && s.world[n] == Running }

  /** How often `n` left the running state, and how often somebody else brought it there. */
  ghost function Departures(w0: World, es: seq<Step>, n: string): nat
    requires Run(Init(w0), es).Some?
  {
    if es == [] then 0
    else
      Departures(w0, es[..|es| - 1], n) + Bit(Ran(Before(w0, es), n) && !Ran(After(w0, es), n))
  }

  ghost function Arrivals(w0: World, es: seq<Step>, n: string): nat
    requires Run(Init(w0), es).Some?
  {
    if es == [] then 0
    else
      Arrivals(w0, es[..|es| - 1], n)
      + Bit(es[|es| - 1].Environment? && !Ran(Before(w0, es), n) && Ran(After(w0, es), n))
  }

  /** Whether the last step is one of a call of `n`. */
  ghost predicate ByCallOf(w0: World, es: seq<Step>, n: string)
    requires es != [] && Run(Init(w0), es).Some?
  {
    IsCallStep(es[|es| - 1]) && es[|es| - 1].id in Before(w0, es).calls
    && Before(w0, es).calls[es[|es| - 1].id].name == n
  }

  ghost function Starts(w0: World, es: seq<Step>, n: string): nat
    requires Run(Init(w0), es).Some?
  {
    if es == [] then 0
    else
      Starts(w0, es[..|es| - 1], n) + Bit(es[|es| - 1].StartSucceeds? && ByCallOf(w0, es, n))
  }

  ghost function BlindInspections(w0: World, es: seq<Step>, n: string): nat
    requires Run(Init(w0), es).Some?
  {
    if es == [] then 0
    else
      BlindInspections(w0, es[..|es| - 1], n) + Bit(es[|es| - 1].InspectError? && ByCallOf(w0, es, n))
  }

  /** The tallies of the machine are what an observer of the run would count. */
  lemma {:induction false} TalliesCount(w0: World, es: seq<Step>, n: string)
    requires Run(Init(w0), es).Some?
    ensures
      var t := TallyOf(After(w0, es), n);
      && t.departures == Departures(w0, es, n) && t.external == Arrivals(w0, es, n)
      && t.starts == Starts(w0, es, n) && t.blind == BlindInspections(w0, es, n)
  {
    if es != [] {
      TalliesCount(w0, es[..|es| - 1], n);
      hide Apply;
      TallyStep(Before(w0, es), es[|es| - 1], After(w0, es), n);
    }
  }

  ghost predicate TallyMoves(s: State, e: Step, s': State, n: string) {
    var t, t' := TallyOf(s, n), TallyOf(s', n);
    var own := IsCallStep(e) && e.id in s.calls && s.calls[e.id].name == n;
    && t'.departures == t.departures + Bit(Ran(s, n) && !Ran(s', n))
    && t'.external == t.external + Bit(e.Environment? && !Ran(s, n) && Ran(s', n))
    && t'.starts == t.starts + Bit(e.StartSucceeds? && own)
    && t'.blind == t.blind + Bit(e.InspectError? && own)
  }

  lemma TallyStep(s: State, e: Step, s': State, n: string)
    requires Apply(s, e) == Some(s')
    ensures TallyMoves(s, e, s', n)
  {
    if Subject(s, e) != n {
      AccountUnmoved(s, e, s', n);
      hide Apply;
    } else if IsCallStep(e) {
      TallyOfCall(s, e, s');
    } else {
      hide Message;
    }
  }

  lemma TallyOfCall(s: State, e: Step, s': State)
    requires Apply(s, e) == Some(s') && IsCallStep(e)
    ensures TallyMoves(s, e, s', s.calls[e.id].name)
  {
    hide Message, BootCanFail;
  }

  // ---------------------------------------------------------------- what a call answers, and why

  lemma {:induction false} BootingFollowsStart(w0: World, es: seq<Step>, s: State, id: CallId)
    requires Run(Init(w0), es) == Some(s) && id in s.calls && s.calls[id].pc.Booting?
    ensures StartSucceeds(id) in es
  {
    var k := |es| - 1;
    var before := Run(Init(w0), es[..k]).value;
    if es[k] != StartSucceeds(id) {
      BootingStays(before, es[k], s, id);
      BootingFollowsStart(w0, es[..k], before, id);
    }
  }

  lemma BootingStays(s: State, e: Step, s': State, id: CallId)
    requires Apply(s, e) == Some(s') && id in s'.calls && s'.calls[id].pc.Booting? && e != StartSucceeds(id)
    ensures id in s.calls && s.calls[id].pc.Booting?
  {
    hide Message;
  }

  predicate Done(pc: Pc) { pc.Leaving? || pc.Returned? }

  /** A step by which call `id` of `n` gets its answer, with what Docker showed and the start state says. */
  ghost predicate Answers(s: State, e: Step, s': State, id: CallId, n: string, ok: bool) {
    match e
    case InspectRunning(i) => i == id && ok && Lookup(s.world, n) == Some(Running) && s'.startStates == s.startStates
    case BootReady(i) => i == id && ok && Lookup(s'.startStates, n) == Some(Ready)
    case StartFails(i) => i == id && !ok && Lookup(s'.startStates, n) == Some(Failed("docker start failed"))
    case BootFails(i, cause) =>
      i == id && !ok && Lookup(s'.startStates, n) == Some(Failed(Message(cause)))
      && (cause == Crashed ==> Lookup(s.world, n) == Some(Exited) || Lookup(s.world, n) == Some(Dead))
    case _ => false
  }

  lemma AnswerStep(s: State, e: Step, s': State, id: CallId)
    requires Apply(s, e) == Some(s') && id in s'.calls && Done(s'.calls[id].pc)
    ensures id in s.calls && s.calls[id].name == s'.calls[id].name
    ensures
      || (Done(s.calls[id].pc) && s.calls[id].pc.ok == s'.calls[id].pc.ok)
      || (Answers(s, e, s', id, s.calls[id].name, s'.calls[id].pc.ok)
          && (e.BootReady? || e.BootFails? ==> s.calls[id].pc.Booting?))
  {}

  /** The answer of a call: nil after an inspection that found the container running or after a start
      and a readiness it waited for, an error after a failed start or a failed boot; and step `j`, by
      which it was decided, left the start state that says so. */
  lemma {:induction false} AnswerExplained(w0: World, es: seq<Step>, s: State, id: CallId) returns (j: nat)
    requires Run(Init(w0), es) == Some(s) && id in s.calls && s.calls[id].pc.Returned?
    ensures j < |es| && Run(Init(w0), es[..j]).Some? && Run(Init(w0), es[..j + 1]).Some?
    ensures Answers(Run(Init(w0), es[..j]).value, es[j], Run(Init(w0), es[..j + 1]).value, id, s.calls[id].name,
                    s.calls[id].pc.ok)
    ensures s.calls[id].pc.ok ==> InspectRunning(id) in es || (StartSucceeds(id) in es && BootReady(id) in es)
    ensures !s.calls[id].pc.ok ==> StartFails(id) in es
                                   || (StartSucceeds(id) in es && exists cause :: BootFails(id, cause) in es)
  {
    j := AnswerDecided(w0, es, s, id);
    assert es[j] in es;
  }

  lemma {:induction false} AnswerDecided(w0: World, es: seq<Step>, s: State, id: CallId) returns (j: nat)
    requires Run(Init(w0), es) == Some(s) && id in s.calls && Done(s.calls[id].pc)
    ensures j < |es| && Run(Init(w0), es[..j]).Some? && Run(Init(w0), es[..j + 1]).Some?
    ensures Answers(Run(Init(w0), es[..j]).value, es[j], Run(Init(w0), es[..j + 1]).value, id, s.calls[id].name,
                    s.calls[id].pc.ok)
    ensures es[j].BootReady? || es[j].BootFails? ==> StartSucceeds(id) in es
  {
    var k := |es| - 1;
    var before := Run(Init(w0), es[..k]).value;
    hide Apply, Answers;
    AnswerStep(before, es[k], s, id);
    if Done(before.calls[id].pc) && before.calls[id].pc.ok == s.calls[id].pc.ok {
      j := AnswerDecided(w0, es[..k], before, id);
      assert es[..k][..j] == es[..j] && es[..k][..j + 1] == es[..j + 1];
    } else {
      j := k;
      assert es[..k + 1] == es;
      if es[k].BootReady? || es[k].BootFails? { BootingFollowsStart(w0, es[..k], before, id); }
    }
  }

  /** Inspections tell the truth, a granted start makes the container run, and nothing but a granted
      start and the environment changes the world. */
  lemma WorldSteps(s: State, e: Step, s': State)
    requires Apply(s, e) == Some(s')
    ensures e.InspectRunning? ==> e.id in s.calls && Lookup(s.world, s.calls[e.id].name) == Some(Running)
    ensures e.InspectOther? ==> e.id in s.calls && s.calls[e.id].name in s.world
                                && s.world[s.calls[e.id].name] != Running
    ensures e.StartSucceeds? ==> e.id in s.calls && s.calls[e.id].name in s.world
                                 && s'.world == s.world[s.calls[e.id].name := Running]
    ensures !e.StartSucceeds? && !e.Environment? ==> s'.world == s.world
  {
    hide Message;
  }

  /** A call sets its own start state to starting when it goes on to start, and no step touches the
      start state of another container. */
  lemma StateSteps(s: State, e: Step, s': State)
    requires Apply(s, e) == Some(s')
    ensures e.InspectOther? || e.InspectError? ==> Lookup(s'.startStates, s.calls[e.id].name) == Some(Starting)
    ensures e.InitState? ==> Lookup(s'.startStates, e.name) == Some(Starting)
    ensures forall n :: n != Subject(s, e) ==> Lookup(s'.startStates, n) == Lookup(s.startStates, n)
  {
    hide Message;
  }

  // ---------------------------------------------------------------- a start follows the holder's inspection

  predicate IsInspection(e: Step, id: CallId) {
    e == InspectOther(id) || e == InspectError(id)
  }

  /** A step inside (or into) the critical section of `n` by a call other than `id`. */
  predicate Intrudes(s: State, e: Step, id: CallId, n: string) {
    && IsCallStep(e) && !e.GetLock?
    && e.id != id && e.id in s.calls && s.calls[e.id].name == n
  }

  /** The last inspection by `id` is step `j`, and no other call has touched the section since. */
  ghost predicate Undisturbed(w0: World, es: seq<Step>, id: CallId, n: string, j: nat) {
    && j < |es| && IsInspection(es[j], id)
    && forall k :: j < k < |es| ==>
         Run(Init(w0), es[..k]).Some? && !Intrudes(Run(Init(w0), es[..k]).value, es[k], id, n)
  }

  lemma HolderIsAlone(s: State, e: Step, s': State, id: CallId)
    requires LocksInv(s) && Apply(s, e) == Some(s') && id in s.calls && s.calls[id].pc.Deciding?
    ensures !Intrudes(s, e, id, s.calls[id].name)
  {
    hide Message;
  }

  lemma EnteringDeciding(s: State, e: Step, s': State, id: CallId)
    requires Apply(s, e) == Some(s') && id in s'.calls && s'.calls[id].pc.Deciding? && !IsInspection(e, id)
    ensures id in s.calls && s.calls[id] == s'.calls[id]
  {
    hide Message;
  }

  lemma UndisturbedExtends(w0: World, es: seq<Step>, id: CallId, n: string, j: nat)
    requires es != [] && Undisturbed(w0, es[..|es| - 1], id, n, j)
    requires Run(Init(w0), es[..|es| - 1]).Some?
    requires !Intrudes(Run(Init(w0), es[..|es| - 1]).value, es[|es| - 1], id, n)
    ensures Undisturbed(w0, es, id, n, j)
  {
    var less := es[..|es| - 1];
    forall k | j < k < |es|
      ensures Run(Init(w0), es[..k]).Some? && !Intrudes(Run(Init(w0), es[..k]).value, es[k], id, n)
    {
      if k < |less| { assert less[..k] == es[..k] && less[k] == es[k]; }
    }
  }

  lemma {:induction false} DecidingFollowsInspection(w0: World, es: seq<Step>, s: State, id: CallId) returns (j: nat)
    requires Run(Init(w0), es) == Some(s) && id in s.calls && s.calls[id].pc.Deciding?
    ensures Undisturbed(w0, es, id, s.calls[id].name, j)
  {
    if es == [] { assert false; }
    var k := |es| - 1;
    var before := Run(Init(w0), es[..k]).value;
    if IsInspection(es[k], id) { return k; }
    EnteringDeciding(before, es[k], s, id);
    j := DecidingFollowsInspection(w0, es[..k], before, id);
    RunKeeps(w0, es[..k], before);
    HolderIsAlone(before, es[k], s, id);
    UndisturbedExtends(w0, es, id, s.calls[id].name, j);
  }

  /** Every start request comes after an inspection by the same call that did not find the container
      running, and between the two no other call is active in that container's critical section. */
  lemma StartFollowsInspection(w0: World, es: seq<Step>, e: Step, s: State) returns (j: nat)
    requires e.StartSucceeds? || e.StartFails?
    requires Run(Init(w0), es) == Some(s) && Apply(s, e).Some?
    ensures e.id in s.calls && Undisturbed(w0, es, e.id, s.calls[e.id].name, j)
  {
    j := DecidingFollowsInspection(w0, es, s, e.id);
  }

  // ---------------------------------------------------------------- progress

  lemma CanMove(s: State, id: CallId) returns (e: Step)
    requires id in s.calls && !s.calls[id].pc.Returned?
    requires s.calls[id].pc.Waiting? ==> s.calls[id].pc.lock !in s.held
    ensures IsCallStep(e) && e.id == id && Apply(s, e).Some?
  {
    match s.calls[id].pc
    case Arrived => e := GetLock(id);
    case Waiting(_) => e := Acquire(id);
    case Holding(_) => e := InspectError(id);
    case Deciding(_, _) => e := StartFails(id);
    case Booting(_) => e := BootReady(id);
    case Leaving(_, _) => e := Unlock(id);
  }

  /** No deadlock: a call that has not returned can move, or waits for one that can. */
  lemma SomeCallCanMove(w0: World, es: seq<Step>, s: State, id: CallId) returns (e: Step)
    requires Run(Init(w0), es) == Some(s) && id in s.calls && !s.calls[id].pc.Returned?
    ensures IsCallStep(e) && Apply(s, e).Some?
    ensures e.id == id || (s.calls[id].pc.Waiting? && e.id in s.calls && s.calls[e.id].name == s.calls[id].name)
  {
    hide Apply;
    RunKeeps(w0, es, s);
    var waiting := s.calls[id].pc.Waiting? && s.calls[id].pc.lock in s.held;
    e := CanMove(s, if waiting then s.held[s.calls[id].pc.lock] else id);
  }

  // ---------------------------------------------------------------- a claim that fails

  lemma RunAppends(s: State, es: seq<Step>, e: Step)
    requires Run(s, es).Some?
    ensures Run(s, es + [e]) == Apply(Run(s, es).value, e)
  {}

  /** A nil result does not mean the start state reads running: the fast path leaves what the server
      had set before the call. */
  lemma SuccessWithoutReadyState(w: World, n: string) returns (es: seq<Step>)
    requires IsRunning(w, n)
    ensures
      var r := Run(Init(w), es);
      r.Some? && 0 in r.value.calls && r.value.calls[0] == Ensure(n, Returned(true))
            && Lookup(r.value.startStates, n) == Some(Starting)
  {
    var steps := [InitState(n), Arrive(0, n), GetLock(0), Acquire(0), InspectRunning(0), Unlock(0)];
    es := [];
    RunAppends(Init(w), es, steps[0]); es := es + [steps[0]];
    RunAppends(Init(w), es, steps[1]); es := es + [steps[1]];
    RunAppends(Init(w), es, steps[2]); es := es + [steps[2]];
    RunAppends(Init(w), es, steps[3]); es := es + [steps[3]];
    RunAppends(Init(w), es, steps[4]); es := es + [steps[4]];
    RunAppends(Init(w), es, steps[5]); es := es + [steps[5]];
  }
}
