/** gateway/scheduler.go: everything written around the `Next` of a cron schedule.
    The cron library itself is not part of this model: a schedule is a set of firing instants. */
module Schedule {
  import opened Wrappers
  import opened Config

  /** Instants are counted in nanoseconds from an epoch that starts a minute. */
  const MINUTE := 60 * 1_000_000_000
  const WEEK := 7 * 24 * 60 * MINUTE

  datatype RawSchedule = RawSchedule(fires: int -> bool, next: int -> Option<int>)

  /** `Next` finds the least firing strictly after an instant. It may give up, but not
      while there is a firing within a week. */
  ghost predicate Sound(s: RawSchedule) {
    forall t ::
      match s.next(t)
      case Some(u) => t < u && s.fires(u) && NoFiring(s, t, u - 1)
      case None => NoFiring(s, t, t + WEEK)
  }

  /** No firing in the interval (lo, hi]. */
  ghost predicate NoFiring(s: RawSchedule, lo: int, hi: int) {
    forall v :: lo < v <= hi ==> !s.fires(v)
  }

  type CronSchedule = s: RawSchedule | Sound(s) witness RawSchedule(t => false, t => None)

  /** The library's parser, applied to an expression with its optional zone prefix. */
  type Parser = string -> Option<CronSchedule>

  datatype Location = NilLocation | Local | Zone(name: string)

  function CronExprFromLoc(expr: string, loc: Location): string {
    if expr == "" || loc.NilLocation? || loc.Local? then expr
    else "CRON_TZ=" + loc.name + " " + expr
  }

  // ---------------------------------------------------------------- the last firing

  /** The most recent firing at or before `now`, looking back one week. */
  method PrevFiring(schedule: CronSchedule, now: int) returns (r: Option<int>)
    ensures r.None? ==> NoFiring(schedule, now - WEEK, now)
    ensures r.Some? ==> now - WEEK < r.value <= now && schedule.fires(r.value) && NoFiring(schedule, r.value, now)
  {
    var first := schedule.next(now - WEEK);
    if first.None? || first.value > now {
      return None;
    }
    var t := first.value;
    while true
      invariant now - WEEK < t <= now && schedule.fires(t)
      decreases now - t
    {
      var next := schedule.next(t);
      if next.None? || next.value > now {
        return Some(t);
      }
      t := next.value;
    }
  }

  // ---------------------------------------------------------------- the access window

  /** The window as a history: start at `lo` in the given state and let every firing in (lo, t]
      take effect, stop winning when both fire together. */
  ghost function Replay(start: CronSchedule, stop: CronSchedule, lo: int, initially: bool, t: int): bool
    decreases t - lo
  {
    if t <= lo then initially
    else if stop.fires(t) then false
    else if start.fires(t) then true
    else Replay(start, stop, lo, initially, t - 1)
  }

  lemma {:induction false} ReplaySkips(start: CronSchedule, stop: CronSchedule, lo: int, initially: bool, u: int,
                                       t: int)
    requires lo <= u <= t && NoFiring(start, u, t) && NoFiring(stop, u, t)
    ensures Replay(start, stop, lo, initially, t) == Replay(start, stop, lo, initially, u)
    decreases t - u
  {
    if u < t { ReplaySkips(start, stop, lo, initially, u, t - 1); }
  }

  lemma {:induction false} ReplaySplits(start: CronSchedule, stop: CronSchedule, lo: int, initially: bool,
                                        mid: int, t: int)
    requires lo <= mid <= t
    ensures Replay(start, stop, lo, initially, t) ==
            Replay(start, stop, mid, Replay(start, stop, lo, initially, mid), t)
    decreases t - mid
  {
    if mid < t { ReplaySplits(start, stop, lo, initially, mid, t - 1); }
  }

  lemma {:induction false} FiringForgets(start: CronSchedule, stop: CronSchedule, lo: int, u: int, t: int, b: bool,
                                         c: bool)
    requires lo < u <= t && (start.fires(u) || stop.fires(u))
    ensures Replay(start, stop, lo, b, t) == Replay(start, stop, lo, c, t)
    decreases t - u
  {
    if u < t { FiringForgets(start, stop, lo, u, t - 1, b, c); }
  }

  /** How the last firings decide the replay. */
  lemma LastFiringsDecide(start: CronSchedule, stop: CronSchedule, now: int, a: Option<int>, b: Option<int>)
    requires a.None? ==> NoFiring(start, now - WEEK, now)
    requires a.Some? ==> now - WEEK < a.value <= now && start.fires(a.value) && NoFiring(start, a.value, now)
    requires b.None? ==> NoFiring(stop, now - WEEK, now)
    requires b.Some? ==> now - WEEK < b.value <= now && stop.fires(b.value) && NoFiring(stop, b.value, now)
    ensures Replay(start, stop, now - WEEK, false, now) <==> a.Some? && (b.None? || a.value > b.value)
  {
    var lo := now - WEEK;
    var from := if a.None? && b.None? then lo
                else if a.Some? && (b.None? || a.value > b.value) then a.value
                else b.value;
    ReplaySkips(start, stop, lo, false, from, now);
  }

  /** Access without a complete, parseable pair of schedules is always allowed. With one, it is allowed
      exactly when replaying the last week from a closed window ends open; a refusal names the next start. */
  method IsInScheduleWindow(cfg: ContainerConfig, now: int, loc: Location, parse: Parser)
    returns (allowed: bool, nextStart: Option<int>)
    ensures cfg.scheduleStart == "" || cfg.scheduleStop == "" ==> allowed
    ensures parse(CronExprFromLoc(cfg.scheduleStart, loc)).None? ==> allowed
    ensures parse(CronExprFromLoc(cfg.scheduleStop, loc)).None? ==> allowed
    ensures cfg.scheduleStart != "" && cfg.scheduleStop != ""
            && parse(CronExprFromLoc(cfg.scheduleStart, loc)).Some?
            && parse(CronExprFromLoc(cfg.scheduleStop, loc)).Some? ==>
            (allowed <==> Replay(parse(CronExprFromLoc(cfg.scheduleStart, loc)).value,
                                 parse(CronExprFromLoc(cfg.scheduleStop, loc)).value, now - WEEK, false, now))
    ensures allowed ==> nextStart == None
    ensures !allowed ==> parse(CronExprFromLoc(cfg.scheduleStart, loc)).Some?
                         && IsLeastAfter(parse(CronExprFromLoc(cfg.scheduleStart, loc)).value, now, nextStart)
  {
    if cfg.scheduleStart == "" || cfg.scheduleStop == "" {
      return true, None;
    }
    var start := parse(CronExprFromLoc(cfg.scheduleStart, loc));
    var stop := parse(CronExprFromLoc(cfg.scheduleStop, loc));
    if start.None? || stop.None? {
      return true, None;
    }
    var prevStart := PrevFiring(start.value, now);
    var prevStop := PrevFiring(stop.value, now);
    LastFiringsDecide(start.value, stop.value, now, prevStart, prevStop);
    if prevStart.None? {
      return false, start.value.next(now);
    }
    if prevStop.None? {
      return true, None;
    }
    if prevStart.value > prevStop.value {
      return true, None;
    }
    return false, start.value.next(now);
  }

  /** The least firing after `now`; none when the library gave up, which excludes one within a week. */
  ghost predicate IsLeastAfter(s: CronSchedule, now: int, r: Option<int>) {
    match r
    case Some(u) => now < u && s.fires(u) && NoFiring(s, now, u - 1)
    case None => NoFiring(s, now, now + WEEK)
  }

  /** The week-long memory agrees with any longer history exactly when something fired within the
      week, or the longer history had the window closed when the week began. */
  lemma WeekAgreesWithHistoryIff(start: CronSchedule, stop: CronSchedule, lo: int, initially: bool, now: int)
    requires lo <= now - WEEK
    ensures Replay(start, stop, lo, initially, now) == Replay(start, stop, now - WEEK, false, now) <==>
            !NoFiring(start, now - WEEK, now) || !NoFiring(stop, now - WEEK, now)
            || !Replay(start, stop, lo, initially, now - WEEK)
  {
    var mid := now - WEEK;
    var b := Replay(start, stop, lo, initially, mid);
    ReplaySplits(start, stop, lo, initially, mid, now);
    if NoFiring(start, mid, now) && NoFiring(stop, mid, now) {
      ReplaySkips(start, stop, mid, b, mid, now);
      ReplaySkips(start, stop, mid, false, mid, now);
    } else {
      var u :| mid < u <= now && (start.fires(u) || stop.fires(u));
      FiringForgets(start, stop, mid, u, now, b, false);
    }
  }

  /** A schedule that fires at the given instants only, for one-off examples. */
  function Once(at: int): RawSchedule {
    RawSchedule(t => t == at, t => if t < at then Some(at) else None)
  }

  /** A start one instant more than a week ago with no stop since: the window is open by history,
      yet access is refused. */
  lemma OldStartIsForgotten(now: int)
    ensures
      var start: RawSchedule, stop: RawSchedule := Once(now - WEEK - 1), RawSchedule(t => false, t => None);
      Sound(start) && Sound(stop)
      && Replay(start, stop, now - WEEK - 2, false, now)
      && !Replay(start, stop, now - WEEK, false, now)
  {
    var start: RawSchedule, stop: RawSchedule := Once(now - WEEK - 1), RawSchedule(t => false, t => None);
    assert Sound(start) && Sound(stop);
    ReplaySkips(start, stop, now - WEEK - 2, false, now - WEEK - 1, now);
    ReplaySkips(start, stop, now - WEEK, false, now - WEEK, now);
  }

  // ---------------------------------------------------------------- the conflict check

  function TruncateToMinute(t: int): int { t - t % MINUTE }

  ghost predicate FiresInMinute(s: CronSchedule, lo: int, hi: int, m: int) {
    exists u :: lo < u <= hi && s.fires(u) && TruncateToMinute(u) == m
  }

  /** Both fire in minute `m` among their firings of the week after `now`. */
  ghost predicate SharedMinute(start: CronSchedule, stop: CronSchedule, now: int, m: int) {
    FiresInMinute(start, now, now + WEEK, m) && FiresInMinute(stop, now, now + WEEK, m)
  }

  datatype ScheduleError = StartInvalid | StopInvalid | Conflict(minute: int)

  method StartMinutes(s: CronSchedule, now: int) returns (minutes: set<int>)
    ensures forall m :: m in minutes <==> FiresInMinute(s, now, now + WEEK, m)
  {
    minutes := {};
    var t := now;
    var next := s.next(t);
    while next.Some? && next.value <= now + WEEK
      invariant now <= t <= now + WEEK && next == s.next(t)
      invariant forall m :: m in minutes <==> FiresInMinute(s, now, t, m)
      decreases now + WEEK - t
    {
      ghost var before, t0 := minutes, t;
      t := next.value;
      minutes := minutes + {TruncateToMinute(t)};
      next := s.next(t);
      forall m ensures m in minutes <==> FiresInMinute(s, now, t, m) {
        if FiresInMinute(s, now, t, m) {
          var u :| now < u <= t && s.fires(u) && TruncateToMinute(u) == m;
          if u <= t0 { assert FiresInMinute(s, now, t0, m); } else { assert u == t; }
        }
        if m in before { assert FiresInMinute(s, now, t0, m); }
      }
    }
    forall m | FiresInMinute(s, now, now + WEEK, m) ensures m in minutes {
      var u :| now < u <= now + WEEK && s.fires(u) && TruncateToMinute(u) == m;
      assert u <= t;
      assert FiresInMinute(s, now, t, m);
    }
  }

  /** Stop firings up to `t` meet no start minute. */
  ghost predicate FreeUpTo(stop: CronSchedule, startMinutes: set<int>, now: int, t: int) {
    forall v :: now < v <= t && stop.fires(v) ==> TruncateToMinute(v) !in startMinutes
  }

  method FindConflict(start: CronSchedule, stop: CronSchedule, now: int) returns (conflict: Option<int>)
    ensures conflict.None? ==> forall m :: !SharedMinute(start, stop, now, m)
    ensures conflict.Some? ==> IsFirstConflict(start, stop, now, conflict.value)
  {
    var startMinutes := StartMinutes(start, now);
    var t := now;
    var next := stop.next(t);
    while next.Some? && next.value <= now + WEEK
      invariant now <= t <= now + WEEK && next == stop.next(t)
      invariant FreeUpTo(stop, startMinutes, now, t)
      decreases now + WEEK - t
    {
      assert FreeUpTo(stop, startMinutes, now, next.value - 1);
      t := next.value;
      var key := TruncateToMinute(t);
      if key in startMinutes {
        FirstConflictFound(start, stop, startMinutes, now, t);
        return Some(key);
      }
      next := stop.next(t);
    }
    NoConflictFound(start, stop, startMinutes, now, t);
    return None;
  }

  lemma FirstConflictFound(start: CronSchedule, stop: CronSchedule, startMinutes: set<int>, now: int, t: int)
    requires forall m :: m in startMinutes <==> FiresInMinute(start, now, now + WEEK, m)
    requires now < t <= now + WEEK && stop.fires(t) && TruncateToMinute(t) in startMinutes
    requires FreeUpTo(stop, startMinutes, now, t - 1)
    ensures IsFirstConflict(start, stop, now, TruncateToMinute(t))
  {}

  lemma NoConflictFound(start: CronSchedule, stop: CronSchedule, startMinutes: set<int>, now: int, t: int)
    requires forall m :: m in startMinutes <==> FiresInMinute(start, now, now + WEEK, m)
    requires now <= t && FreeUpTo(stop, startMinutes, now, t)
    requires stop.next(t).None? || stop.next(t).value > now + WEEK
    ensures forall m :: !SharedMinute(start, stop, now, m)
  {}

  ghost predicate IsFirstConflict(start: CronSchedule, stop: CronSchedule, now: int, m: int) {
    && SharedMinute(start, stop, now, m)
    && forall k :: SharedMinute(start, stop, now, k) ==> m <= k
  }

  ghost predicate Parses(expr: string, loc: Location, parse: Parser) {
    expr != "" ==> parse(CronExprFromLoc(expr, loc)).Some?
  }

  /** Whatever is given parses, and a complete pair shares no minute of the coming week. */
  ghost predicate Compatible(startExpr: string, stopExpr: string, loc: Location, parse: Parser, clock: int) {
    && Parses(startExpr, loc, parse) && Parses(stopExpr, loc, parse)
    && (startExpr != "" && stopExpr != "" ==>
          var now := TruncateToMinute(clock);
          forall m :: !SharedMinute(parse(CronExprFromLoc(startExpr, loc)).value,
                                    parse(CronExprFromLoc(stopExpr, loc)).value, now, m))
  }

  /** Two parseable schedules conflict exactly when they share a minute among the firings of the
      coming week; the error names the first such minute. Seconds of the clock reading are dropped. */
  method ValidateScheduleCompatibility(startExpr: string, stopExpr: string, loc: Location, parse: Parser, clock: int)
    returns (err: Option<ScheduleError>)
    ensures err.None? <==> Compatible(startExpr, stopExpr, loc, parse, clock)
    ensures err == Some(StartInvalid) <==> startExpr != "" && parse(CronExprFromLoc(startExpr, loc)).None?
    ensures err == Some(StopInvalid) <==>
              (startExpr == "" || parse(CronExprFromLoc(startExpr, loc)).Some?)
              && stopExpr != "" && parse(CronExprFromLoc(stopExpr, loc)).None?
    ensures err.Some? && err.value.Conflict? ==>
              startExpr != "" && stopExpr != ""
              && IsFirstConflict(parse(CronExprFromLoc(startExpr, loc)).value,
                                 parse(CronExprFromLoc(stopExpr, loc)).value,
                                 TruncateToMinute(clock), err.value.minute)
  {
    var start: Option<CronSchedule>, stop: Option<CronSchedule> := None, None;
    if startExpr != "" {
      start := parse(CronExprFromLoc(startExpr, loc));
      if start.None? {
        return Some(StartInvalid);
      }
    }
    if stopExpr != "" {
      stop := parse(CronExprFromLoc(stopExpr, loc));
      if stop.None? {
        return Some(StopInvalid);
      }
    }
    if start.None? || stop.None? {
      return None;
    }
    var conflict := FindConflict(start.value, stop.value, TruncateToMinute(clock));
    return if conflict.Some? then Some(Conflict(conflict.value)) else None;
  }

  // ---------------------------------------------------------------- the lengths of time

  const NEVER: RawSchedule := RawSchedule(t => false, t => None)

  lemma OneOffIsSound(at: int)
    ensures Sound(Once(at)) && Sound(NEVER)
  {}

  /** Seven days of nanoseconds: a single start with no stop keeps the window open for exactly that long. */
  lemma StartCountsForAWeek(at: int, now: int)
    ensures Sound(Once(at)) && Sound(NEVER)
    ensures Replay(Once(at), NEVER, now - WEEK, false, now) <==> now - 604_800_000_000_000 < at <= now
  {
    OneOffIsSound(at);
    var start: CronSchedule, stop: CronSchedule := Once(at), NEVER;
    if now - WEEK < at <= now {
      ReplaySkips(start, stop, now - WEEK, false, at, now);
    } else {
      ReplaySkips(start, stop, now - WEEK, false, now - WEEK, now);
    }
  }

  /** With one start and one stop, the window is open exactly when the start lies in the last seven days
      and the stop has not come at or after it. */
  lemma LaterFiringDecides(a: int, b: int, now: int)
    ensures Sound(Once(a)) && Sound(Once(b))
    ensures Replay(Once(a), Once(b), now - WEEK, false, now) <==>
            now - 604_800_000_000_000 < a <= now && !(a <= b <= now)
  {
    OneOffIsSound(a);
    OneOffIsSound(b);
    var start: CronSchedule, stop: CronSchedule := Once(a), Once(b);
    var week := now - WEEK;
    var x := if week < a <= now then Some(a) else None;
    var y := if week < b <= now then Some(b) else None;
    LastFiringsDecide(start, stop, now, x, y);
  }

  /** Two single firings conflict exactly when both fall into the coming seven days and into the same
      minute of sixty seconds. */
  lemma ConflictMeansSameMinute(a: int, b: int, now: int)
    ensures Sound(Once(a)) && Sound(Once(b))
    ensures (exists m :: SharedMinute(Once(a), Once(b), now, m)) <==>
            now < a <= now + 604_800_000_000_000 && now < b <= now + 604_800_000_000_000
            && a / 60_000_000_000 == b / 60_000_000_000
  {
    OneOffIsSound(a);
    OneOffIsSound(b);
    var start: CronSchedule, stop: CronSchedule := Once(a), Once(b);
    if m :| SharedMinute(start, stop, now, m) {
      assert TruncateToMinute(a) == m == TruncateToMinute(b);
    }
    if now < a <= now + WEEK && now < b <= now + WEEK && a / 60_000_000_000 == b / 60_000_000_000 {
      assert TruncateToMinute(a) == TruncateToMinute(b);
      assert FiresInMinute(start, now, now + WEEK, TruncateToMinute(a));
      assert FiresInMinute(stop, now, now + WEEK, TruncateToMinute(a));
      assert SharedMinute(start, stop, now, TruncateToMinute(a));
    }
  }

  /** Truncation drops less than sixty seconds and lands on a whole minute. */
  lemma TruncatedIsWholeMinute(t: int)
    ensures TruncateToMinute(t) <= t < TruncateToMinute(t) + 60_000_000_000
    ensures TruncateToMinute(t) % 60_000_000_000 == 0
  {}

  /** The conflict check in terms of firings: two given, parseable schedules pass exactly when no start
      and stop of the seven days after the current whole minute fall into one minute. */
  lemma CompatibleInPlainTerms(startExpr: string, stopExpr: string, loc: Location, parse: Parser, clock: int, now: int,
                               start: CronSchedule, stop: CronSchedule)
    requires startExpr != "" && parse(CronExprFromLoc(startExpr, loc)) == Some(start)
    requires stopExpr != "" && parse(CronExprFromLoc(stopExpr, loc)) == Some(stop)
    requires now % 60_000_000_000 == 0 && now <= clock < now + 60_000_000_000
    ensures Compatible(startExpr, stopExpr, loc, parse, clock) <==>
            forall u, v :: start.fires(u) && stop.fires(v)
                           && now < u <= now + 604_800_000_000_000 && now < v <= now + 604_800_000_000_000 ==>
              u / 60_000_000_000 != v / 60_000_000_000
  {
    assert now == TruncateToMinute(clock);
    forall u, v | start.fires(u) && stop.fires(v) && now < u <= now + WEEK && now < v <= now + WEEK
                  && u / 60_000_000_000 == v / 60_000_000_000
      ensures SharedMinute(start, stop, now, TruncateToMinute(u))
    {
      assert TruncateToMinute(u) == TruncateToMinute(v);
    }
  }
}
