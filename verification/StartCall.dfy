/** One call of EnsureRunning (gateway/manager.go) as a value: what it is told and what it leaves behind. */
module StartCall {
  import opened Wrappers
  import opened Config
  import opened Docker

  datatype StartState = Starting | Ready | Failed(msg: string) | Unknown

  datatype StartError = StartFailed | NoAddress | Crashed | TimedOut

  /** The message stored for the loading page. */
  function Message(e: StartError): string {
    match e
    case StartFailed => "docker start failed"
    case NoAddress => "cannot find container IP"
    case Crashed => "container crashed on boot (see docker logs)"
    case TimedOut => "startup timeout exceeded"
  }

  /** Everything a start call can change or be told. */
  datatype View = View(world: World, still: bool, heard: seq<Answer>, lastSeen: map<string, int>,
                       startStates: map<string, StartState>, clock: int)

  // ---------------------------------------------------------------- the answers

  predicate Alive(n: string, a: Answer) {
    a.Inspected? && a.name == n && a.status != Some(Exited) && a.status != Some(Dead)
  }

  predicate Down(n: string, a: Answer) { a.Inspected? && a.name == n && !Alive(n, a) }

  /** Polls that decide nothing: an inspection, a failed probe, an inspection, ... */
  ghost predicate GoesOn(n: string, polls: seq<Answer>) {
    && |polls| % 2 == 0
    && forall k :: 0 <= k < |polls| ==> if k % 2 == 0 then Alive(n, polls[k]) else polls[k] == Probed(n, false)
  }

  /** The polling loop: goes on until a probe succeeds, the container is down, or time is up. */
  ghost predicate Polled(n: string, polls: seq<Answer>, r: Result<(), StartError>) {
    var k := |polls|;
    match r
    case Ok(_) => k >= 2 && GoesOn(n, polls[..k - 2]) && Alive(n, polls[k - 2]) && polls[k - 1] == Probed(n, true)
    case Err(e) =>
      match e
      case Crashed => k >= 1 && GoesOn(n, polls[..k - 1]) && Down(n, polls[k - 1])
      case TimedOut => GoesOn(n, polls)
      case _ => false
  }

  /** The whole call. */
  ghost predicate Told(n: string, said: seq<Answer>, r: Result<(), StartError>) {
    && said != [] && said[0].Inspected? && said[0].name == n
    && if said[0].status == Some(Running) then |said| == 1 && r.Ok?
       else
         && |said| >= 2 && said[1].StartAsked? && said[1].name == n
         && if !said[1].ok then |said| == 2 && r == Err(StartFailed)
            else
              && |said| >= 3 && said[2].Located? && said[2].name == n
              && if !said[2].found then |said| == 3 && r == Err(NoAddress)
                 else Polled(n, said[3..], r)
  }

  /** Every answer is about `n`; only the first can be the one that finds it running, and a start is
      asked for exactly when it does not. */
  lemma AnswersAreOwn(n: string, said: seq<Answer>, r: Result<(), StartError>)
    requires Told(n, said, r)
    ensures forall k :: 0 <= k < |said| ==> said[k].name == n
    ensures |said| == 1 <==> said[0] == Inspected(n, Some(Running))
    ensures |said| > 1 ==> said[1].StartAsked? && forall k :: 2 <= k < |said| ==> !said[k].StartAsked?
  {
    if |said| > 3 {
      assert forall k :: 3 <= k < |said| ==> said[k] == said[3..][k - 3];
    }
  }

  /** The last answer decides the outcome ... */
  lemma LastAnswerDecides(n: string, said: seq<Answer>, r: Result<(), StartError>)
    requires Told(n, said, r)
    ensures
      var last := said[|said| - 1];
      && (r.Ok? <==> last == Probed(n, true) || said == [Inspected(n, Some(Running))])
      && (r == Err(StartFailed) <==> last == StartAsked(n, false))
      && (r == Err(NoAddress) <==> last == Located(n, false))
      && (r == Err(Crashed) <==>
            |said| > 1 && (last == Inspected(n, Some(Exited)) || last == Inspected(n, Some(Dead))))
      && (r == Err(TimedOut) <==> last == Located(n, true) || last == Probed(n, false))
  {
    if |said| > 3 {
      var polls := said[3..];
      assert polls[|polls| - 1] == said[|said| - 1];
      if r == Err(TimedOut) { assert (|polls| - 1) % 2 == 1; }
    }
  }

  /** ... and nothing before it does: after the start, inspections of a container that is not down and
      probes that fail take turns. */
  lemma NothingDecidesEarlier(n: string, said: seq<Answer>, r: Result<(), StartError>, k: nat)
    requires Told(n, said, r) && 0 < k < |said| - 1
    ensures k == 1 ==> said[k] == StartAsked(n, true)
    ensures k == 2 ==> said[k] == Located(n, true)
    ensures k > 2 && k % 2 == 0 ==> said[k] == Probed(n, false)
    ensures k > 2 && k % 2 == 1 ==>
              said[k].Inspected? && said[k].name == n && said[k].status != Some(Exited) && said[k].status != Some(Dead)
  {
    if k > 2 { assert said[k] == said[3..][k - 3]; }
  }

  lemma NoPolls(n: string)
    ensures GoesOn(n, [])
  {}

  lemma PollsGoOn(n: string, polls: seq<Answer>, status: Option<Status>)
    requires GoesOn(n, polls)
    ensures
      var more := polls + [Inspected(n, status)];
      && (status == Some(Exited) || status == Some(Dead) ==> Polled(n, more, Err(Crashed)))
      && (status != Some(Exited) && status != Some(Dead) ==>
            GoesOn(n, more + [Probed(n, false)]) && Polled(n, more + [Probed(n, true)], Ok(())))
  {
    var more := polls + [Inspected(n, status)];
    assert more[..|more| - 1] == polls;
    assert (more + [Probed(n, true)])[..|more| - 1] == polls;
  }

  lemma PollsRunOut(n: string, polls: seq<Answer>)
    requires GoesOn(n, polls)
    ensures Polled(n, polls, Err(TimedOut))
  {}

  lemma ToldBeforePolls(n: string, status: Option<Status>)
    ensures status == Some(Running) ==> Told(n, [Inspected(n, status)], Ok(()))
    ensures status != Some(Running) ==> Told(n, [Inspected(n, status), StartAsked(n, false)], Err(StartFailed))
    ensures status != Some(Running) ==>
              Told(n, [Inspected(n, status), StartAsked(n, true), Located(n, false)], Err(NoAddress))
  {
    hide Polled;
  }

  lemma ToldWithPolls(n: string, status: Option<Status>, polls: seq<Answer>, r: Result<(), StartError>)
    requires status != Some(Running) && Polled(n, polls, r)
    ensures Told(n, [Inspected(n, status), StartAsked(n, true), Located(n, true)] + polls, r)
  {
    hide Polled;
    var said := [Inspected(n, status), StartAsked(n, true), Located(n, true)] + polls;
    assert said[3..] == polls;
  }

  // ---------------------------------------------------------------- the effects

  /** A start was asked for and granted. */
  predicate Started(said: seq<Answer>) { |said| > 1 && said[1].StartAsked? && said[1].ok }

  /** Success stamps `n` with a reading of the clock during the call; failure stamps nothing. */
  ghost predicate Booked(n: string, ok: bool, before: map<string, int>, after: map<string, int>, from: int, to: int) {
    && from <= to
    && (ok ==> n in after && from <= after[n] <= to && after == before[n := after[n]])
    && (!ok ==> after == before)
  }

  lemma StampBooks(n: string, before: map<string, int>, from: int, to: int)
    requires from <= to
    ensures Booked(n, true, before, before[n := to], from, to)
  {}

  lemma NoStampBooks(n: string, before: map<string, int>, from: int)
    ensures Booked(n, false, before, before, from, from)
  {}

  /** Success on the first inspection leaves the start state alone; otherwise it tells the outcome. */
  function StateOf(said: seq<Answer>, n: string, r: Result<(), StartError>, before: map<string, StartState>):
      map<string, StartState> {
    if |said| == 1 then before else before[n := if r.Ok? then Ready else Failed(Message(r.error))]
  }

  /** In a quiet world only the start changes anything, and success means the container runs. */
  ghost predicate Raises(n: string, ok: bool, said: seq<Answer>, a: View, b: View) {
    && a.still && b.world == (if Started(said) then a.world[n := Running] else a.world)
    && (ok ==> IsRunning(b.world, n))
  }

  ghost predicate Outcome(n: string, r: Result<(), StartError>, said: seq<Answer>, a: View, b: View) {
    && b.heard == a.heard + said && Told(n, said, r)
    && Booked(n, r.Ok?, a.lastSeen, b.lastSeen, a.clock, b.clock)
    && b.startStates == StateOf(said, n, r, a.startStates)
    && (b.still ==> Raises(n, r.Ok?, said, a, b))
  }

  /** What a caller finds afterwards. */
  lemma OutcomeShows(n: string, r: Result<(), StartError>, said: seq<Answer>, a: View, b: View)
    requires Outcome(n, r, said, a, b)
    ensures r == Err(StartFailed) ==> Lookup(b.startStates, n) == Some(Failed("docker start failed"))
    ensures r == Err(NoAddress) ==> Lookup(b.startStates, n) == Some(Failed("cannot find container IP"))
    ensures r == Err(Crashed) ==>
              Lookup(b.startStates, n) == Some(Failed("container crashed on boot (see docker logs)"))
    ensures r == Err(TimedOut) ==> Lookup(b.startStates, n) == Some(Failed("startup timeout exceeded"))
    ensures r.Ok? ==> Lookup(b.startStates, n) == if |said| > 1 then Some(Ready) else Lookup(a.startStates, n)
    ensures r.Ok? ==> n in b.lastSeen && a.clock <= b.lastSeen[n] <= b.clock
    ensures r.Err? ==> b.lastSeen == a.lastSeen
    ensures forall m :: m != n ==> Lookup(b.startStates, m) == Lookup(a.startStates, m)
                                   && Lookup(b.lastSeen, m) == Lookup(a.lastSeen, m)
    ensures r.Ok? && b.still ==> Lookup(b.world, n) == Some(Running)
  {
    hide Polled;
  }
}
