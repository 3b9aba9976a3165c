/** gateway/group.go: round-robin picks from load-balanced groups. */
module GroupRouter {
  import opened Config

  const TWO_TO_THE_64 := 0x1_0000_0000_0000_0000

  type Counters = map<string, nat>

  function CountOf(counters: Counters, name: string): nat { if name in counters then counters[name] else 0 }

  /** Groups with fewer than two members have no counter. */
  function AfterPick(counters: Counters, group: GroupConfig): Counters {
    if |group.containers| < 2 then counters
    else counters[group.name := (CountOf(counters, group.name) + 1) % TWO_TO_THE_64]
  }

  /** The position picked; the value before the increment decides. */
  function Position(counters: Counters, group: GroupConfig): nat
    requires group.containers != []
  {
    if |group.containers| == 1 then 0 else CountOf(counters, group.name) % |group.containers|
  }

  class Router {
    var counters: Counters

    constructor ()
      ensures counters == map[]
    {
      counters := map[];
    }

    ghost predicate Valid()
      reads this
    {
      forall n :: n in counters ==> counters[n] < TWO_TO_THE_64
    }

    method Pick(group: GroupConfig) returns (name: string)
      requires Valid()
      modifies this
      ensures Valid() && counters == AfterPick(old(counters), group)
      ensures group.containers == [] ==> name == ""
      ensures group.containers != [] ==> name == group.containers[Position(old(counters), group)]
    {
      if |group.containers| == 0 {
        return "";
      }
      if |group.containers| == 1 {
        return group.containers[0];
      }
      if group.name !in counters {
        counters := counters[group.name := 0];
      }
      // The atomic add wraps at 64 bits, and so does the subtraction that recovers the old value.
      var sum := (counters[group.name] + 1) % TWO_TO_THE_64;
      if counters[group.name] + 1 < TWO_TO_THE_64 {
        ModuloUnique(counters[group.name] + 1, 0, counters[group.name] + 1, TWO_TO_THE_64);
        ModuloUnique(sum + TWO_TO_THE_64 - 1, 1, counters[group.name], TWO_TO_THE_64);
      }
      counters := counters[group.name := sum];
      var idx := (sum + TWO_TO_THE_64 - 1) % TWO_TO_THE_64;
      name := group.containers[idx % |group.containers|];
    }
  }

  // ---------------------------------------------------------------- fairness over runs

  /** The table after a run of picks, for whatever groups. */
  function After(counters: Counters, picks: seq<GroupConfig>): Counters {
    if picks == [] then counters else AfterPick(After(counters, picks[..|picks| - 1]), picks[|picks| - 1])
  }

  /** How often the run picks position `i` of a group of `n` members named `name`, from count `c` on. */
  function Hits(c: nat, k: nat, n: nat, i: nat): nat
    requires n > 0
  {
    if k == 0 then 0 else Hits(c, k - 1, n, i) + if (c + k - 1) % n == i then 1 else 0
  }

  /** Picks that touch the counter `name`. */
  function Uses(picks: seq<GroupConfig>, name: string): nat {
    if picks == [] then 0
    else
      var g := picks[|picks| - 1];
      Uses(picks[..|picks| - 1], name) + if g.name == name && |g.containers| >= 2 then 1 else 0
  }

  /** Other groups never disturb a counter: it has moved, modulo the wrap, by the picks of its own group. */
  lemma {:induction false} OnlyOwnPicksCount(counters: Counters, picks: seq<GroupConfig>, name: string)
    requires CountOf(counters, name) < TWO_TO_THE_64
    ensures CountOf(After(counters, picks), name) == (CountOf(counters, name) + Uses(picks, name)) % TWO_TO_THE_64
  {
    if picks == [] {
      ModuloUnique(CountOf(counters, name), 0, CountOf(counters, name), TWO_TO_THE_64);
    } else {
      var before := picks[..|picks| - 1];
      OnlyOwnPicksCount(counters, before, name);
      ModuloStep(CountOf(counters, name) + Uses(before, name), TWO_TO_THE_64);
    }
  }

  /** Reducing before or after the increment makes no difference. */
  lemma ModuloStep(a: nat, n: nat)
    requires n > 0
    ensures (a % n + 1) % n == (a + 1) % n
    ensures (a + 1) % n == if a % n + 1 == n then 0 else a % n + 1
  {
    var q, r := a / n, a % n;
    assert a == q * n + r;
    if r + 1 == n {
      assert a + 1 == (q + 1) * n + 0;
      ModuloUnique(a + 1, q + 1, 0, n);
      ModuloUnique(r + 1, 1, 0, n);
    } else {
      ModuloUnique(a + 1, q, r + 1, n);
      ModuloUnique(r + 1, 0, r + 1, n);
    }
  }

  /** A divisor does not notice a reduction by its multiple. */
  lemma {:induction false} ModuloOfModulo(a: nat, m: nat, n: nat)
    requires n > 0 && m > 0 && m % n == 0
    ensures a % m % n == a % n
    decreases a
  {
    if a == 0 {
      ModuloUnique(0, 0, 0, m);
    } else {
      ModuloOfModulo(a - 1, m, n);
      ModuloStep(a - 1, m);
      ModuloStep(a - 1, n);
      if (a - 1) % m + 1 == m {
        ModuloStep(m - 1, n);
        ModuloUnique(0, 0, 0, n);
      } else {
        ModuloStep((a - 1) % m, n);
      }
    }
  }

  lemma AtLeastOneMultiple(k: int, n: nat)
    requires k >= 1
    ensures k * n >= n
  {}

  /** Quotient and remainder are unique. */
  lemma ModuloUnique(x: nat, q: int, r: nat, n: nat)
    requires r < n && x == q * n + r
    ensures x % n == r
  {
    var q', r' := x / n, x % n;
    assert x == q' * n + r';
    assert (q - q') * n == r' - r;
    assert (q' - q) * n == r - r';
    if q > q' { AtLeastOneMultiple(q - q', n); }
    if q < q' { AtLeastOneMultiple(q' - q, n); }
  }

  lemma WrapsAround(a: nat, n: nat)
    requires n > 0
    ensures (a + n) % n == a % n
  {
    var q, r := a / n, a % n;
    assert a == q * n + r;
    assert a + n == (q + 1) * n + r;
    ModuloUnique(a + n, q + 1, r, n);
  }

  /** n consecutive picks hit every position once. */
  lemma {:induction false} SlidingWindow(c: nat, n: nat, i: nat)
    requires i < n
    ensures Hits(c, n, n, i) == 1
    decreases c
  {
    if c == 0 {
      HitsFromZero(n, n, i);
    } else {
      SlidingWindow(c - 1, n, i);
      HitsShift(c - 1, n, n, i);
      WrapsAround(c - 1, n);
    }
  }

  lemma {:induction false} HitsFromZero(k: nat, n: nat, i: nat)
    requires k <= n && i < n
    ensures Hits(0, k, n, i) == if i < k then 1 else 0
  {
    if k > 0 {
      HitsFromZero(k - 1, n, i);
      ModuloUnique(k - 1, 0, k - 1, n);
    }
  }

  lemma {:induction false} HitsShift(c: nat, k: nat, n: nat, i: nat)
    requires n > 0
    ensures (if c % n == i then 1 else 0) + Hits(c + 1, k, n, i) == Hits(c, k + 1, n, i)
  {
    if k > 0 { HitsShift(c, k - 1, n, i); }
  }

  lemma {:induction false} HitsSplit(c: nat, k: nat, m: nat, n: nat, i: nat)
    requires n > 0
    ensures Hits(c, k + m, n, i) == Hits(c, k, n, i) + Hits(c + k, m, n, i)
  {
    if m > 0 { HitsSplit(c, k, m - 1, n, i); }
  }

  lemma {:induction false} AtMostOnceInWindow(c: nat, k: nat, n: nat, i: nat)
    requires k <= n && i < n
    ensures Hits(c, k, n, i) <= 1
  {
    HitsSplit(c, k, n - k, n, i);
    SlidingWindow(c, n, i);
  }

  lemma {:induction false} HitsAreFair(c: nat, k: nat, n: nat, i: nat, j: nat)
    requires i < n && j < n
    ensures Hits(c, k, n, i) <= Hits(c, k, n, j) + 1
    decreases k
  {
    if k <= n {
      AtMostOnceInWindow(c, k, n, i);
    } else {
      HitsAreFair(c, k - n, n, i, j);
      HitsSplit(c, k - n, n, n, i);
      HitsSplit(c, k - n, n, n, j);
      SlidingWindow(c + (k - n), n, i);
      SlidingWindow(c + (k - n), n, j);
    }
  }

  /** How many of the picks of `group` in a mixed run went to its position `i`. */
  function PickedAt(counters: Counters, picks: seq<GroupConfig>, group: GroupConfig, i: nat): nat
    requires group.containers != []
  {
    if picks == [] then 0
    else
      var before := picks[..|picks| - 1];
      PickedAt(counters, before, group, i)
      + if picks[|picks| - 1] == group && Position(After(counters, before), group) == i then 1 else 0
  }

  /** The run does not mix two groups of the same name. */
  predicate FixedGroup(counters: Counters, picks: seq<GroupConfig>, group: GroupConfig) {
    && |group.containers| >= 2 && CountOf(counters, group.name) < TWO_TO_THE_64
    && forall g :: g in picks && g.name == group.name ==> g == group
  }

  /** The 64-bit counter does not wrap during the run, or the wrap falls between two rounds. */
  predicate UnnoticedWrap(counters: Counters, picks: seq<GroupConfig>, group: GroupConfig)
    requires group.containers != []
  {
    || CountOf(counters, group.name) + Uses(picks, group.name) < TWO_TO_THE_64
    || TWO_TO_THE_64 % |group.containers| == 0
  }

  lemma {:induction false} PicksAreHits(counters: Counters, picks: seq<GroupConfig>, group: GroupConfig, i: nat)
    requires FixedGroup(counters, picks, group) && UnnoticedWrap(counters, picks, group)
    ensures PickedAt(counters, picks, group, i) ==
            Hits(CountOf(counters, group.name), Uses(picks, group.name), |group.containers|, i)
  {
    if picks != [] {
      var before := picks[..|picks| - 1];
      PicksAreHits(counters, before, group, i);
      OnlyOwnPicksCount(counters, before, group.name);
      assert picks[|picks| - 1] in picks;
      var count := CountOf(counters, group.name) + Uses(before, group.name);
      if TWO_TO_THE_64 % |group.containers| == 0 {
        ModuloOfModulo(count, TWO_TO_THE_64, |group.containers|);
      } else if picks[|picks| - 1] == group {
        ModuloUnique(count, 0, count, TWO_TO_THE_64);
      }
    }
  }

  /** Round-robin fairness: in any run, with any picks of other groups in between, two positions of
      the group are picked equally often up to one. */
  lemma Fair(counters: Counters, picks: seq<GroupConfig>, group: GroupConfig, i: nat, j: nat)
    requires FixedGroup(counters, picks, group) && UnnoticedWrap(counters, picks, group)
    requires i < |group.containers| && j < |group.containers|
    ensures PickedAt(counters, picks, group, i) <= PickedAt(counters, picks, group, j) + 1
  {
    PicksAreHits(counters, picks, group, i);
    PicksAreHits(counters, picks, group, j);
    HitsAreFair(CountOf(counters, group.name), Uses(picks, group.name), |group.containers|, i, j);
  }

  // ---------------------------------------------------------------- across the wrap

  /** A pick of `group` is followed by one of the next position. */
  predicate Advances(counters: Counters, group: GroupConfig)
    requires group.containers != []
  {
    Position(AfterPick(counters, group), group) == (Position(counters, group) + 1) % |group.containers|
  }

  /** Whatever the counter holds. */
  ghost predicate AlwaysAdvances(group: GroupConfig)
    requires group.containers != []
  {
    forall counters: Counters :: CountOf(counters, group.name) < TWO_TO_THE_64 ==> Advances(counters, group)
  }

  /** The cycle of a group goes on undisturbed across the wrap exactly for sizes dividing 2^64. */
  lemma WrapContinuesCycleIff(group: GroupConfig)
    requires |group.containers| >= 2
    ensures AlwaysAdvances(group) <==> TWO_TO_THE_64 % |group.containers| == 0
  {
    var last: Counters := map[group.name := TWO_TO_THE_64 - 1];
    assert CountOf(last, group.name) == TWO_TO_THE_64 - 1;
    hide Advances, CountOf;
    AdvancesIff(last, group);
    forall counters: Counters | CountOf(counters, group.name) < TWO_TO_THE_64 && TWO_TO_THE_64 % |group.containers| == 0
      ensures Advances(counters, group)
    {
      AdvancesIff(counters, group);
    }
  }

  lemma AdvancesIff(counters: Counters, group: GroupConfig)
    requires |group.containers| >= 2 && CountOf(counters, group.name) < TWO_TO_THE_64
    ensures Advances(counters, group) <==>
            CountOf(counters, group.name) + 1 < TWO_TO_THE_64 || TWO_TO_THE_64 % |group.containers| == 0
  {
    var n, count := |group.containers|, CountOf(counters, group.name);
    ModuloStep(count, n);
    if count + 1 < TWO_TO_THE_64 {
      ModuloUnique(count + 1, 0, count + 1, TWO_TO_THE_64);
    } else {
      ModuloUnique(TWO_TO_THE_64, 1, 0, TWO_TO_THE_64);
      ModuloUnique(0, 0, 0, n);
    }
  }

  function Repeat(group: GroupConfig, k: nat): seq<GroupConfig> {
    if k == 0 then [] else Repeat(group, k - 1) + [group]
  }

  /** After `k` picks from `r` before the wrap: position 0 was picked once per round begun, the last
      position never. */
  ghost predicate AroundWrap(group: GroupConfig, r: nat, k: nat, counters: Counters, picks: seq<GroupConfig>)
    requires group.containers != []
  {
    && Uses(picks, group.name) == k
    && PickedAt(counters, picks, group, 0) == (if k == 0 then 0 else if k <= r then 1 else 2)
    && PickedAt(counters, picks, group, |group.containers| - 1) == 0
  }

  /** Started `r` picks before the wrap, with `r` the remainder of 2^64, two rounds begin at position 0
      before the last position is reached once. */
  lemma {:induction false} PicksAroundWrap(group: GroupConfig, r: nat, k: nat)
    requires |group.containers| >= 2 && IsRemainder(r, |group.containers|) && k <= 2 * r
    ensures AroundWrap(group, r, k, BeforeWrap(group, r), Repeat(group, k))
  {
    if k > 0 {
      var counters, picks := BeforeWrap(group, r), Repeat(group, k - 1);
      PicksAroundWrap(group, r, k - 1);
      NextAroundWrap(group, r, k - 1, counters, picks);
      RemainderIsSmall(r, |group.containers|);
      hide Position, After, PickedAt, Uses, IsRemainder, BeforeWrap;
      OnePickMore(counters, picks, group, 0);
      OnePickMore(counters, picks, group, |group.containers| - 1);
    }
  }

  lemma NextAroundWrap(group: GroupConfig, r: nat, k: nat, counters: Counters, picks: seq<GroupConfig>)
    requires |group.containers| >= 2 && IsRemainder(r, |group.containers|) && k < 2 * r
    requires CountOf(counters, group.name) == TWO_TO_THE_64 - r && Uses(picks, group.name) == k
    ensures Position(After(counters, picks), group) == if k < r then k else k - r
  {
    hide IsRemainder;
    RemainderIsSmall(r, |group.containers|);
    OnlyOwnPicksCount(counters, picks, group.name);
    PositionAroundWrap(|group.containers|, r, k);
  }

  predicate IsRemainder(r: nat, n: nat)
    requires n > 0
  {
    0 < r <= TWO_TO_THE_64 && r == TWO_TO_THE_64 % n
  }

  lemma RemainderIsSmall(r: nat, n: nat)
    requires n > 0 && IsRemainder(r, n)
    ensures 0 < r < n && r <= TWO_TO_THE_64
  {}

  function BeforeWrap(group: GroupConfig, r: nat): (counters: Counters)
    requires 0 < r <= TWO_TO_THE_64
    ensures CountOf(counters, group.name) == TWO_TO_THE_64 - r
  {
    map[group.name := TWO_TO_THE_64 - r]
  }

  lemma OnePickMore(counters: Counters, picks: seq<GroupConfig>, group: GroupConfig, i: nat)
    requires |group.containers| >= 2
    ensures Uses(picks + [group], group.name) == Uses(picks, group.name) + 1
    ensures PickedAt(counters, picks + [group], group, i) ==
            PickedAt(counters, picks, group, i) + if Position(After(counters, picks), group) == i then 1 else 0
  {
    assert (picks + [group])[..|picks|] == picks;
  }

  lemma {:induction false} OnlyRepeated(group: GroupConfig, k: nat)
    ensures forall g :: g in Repeat(group, k) ==> g == group
  {
    if k > 0 { OnlyRepeated(group, k - 1); }
  }

  lemma PositionAroundWrap(n: nat, r: nat, k: nat)
    requires n >= 2 && IsRemainder(r, n) && k < 2 * r
    ensures (TWO_TO_THE_64 - r + k) % TWO_TO_THE_64 % n == if k < r then k else k - r
  {
    if k < r {
      ModuloUnique(TWO_TO_THE_64 - r + k, 0, TWO_TO_THE_64 - r + k, TWO_TO_THE_64);
      var q := TWO_TO_THE_64 / n;
      assert TWO_TO_THE_64 - r + k == q * n + k;
      ModuloUnique(TWO_TO_THE_64 - r + k, q, k, n);
    } else {
      ModuloUnique(TWO_TO_THE_64 - r + k, 1, k - r, TWO_TO_THE_64);
      ModuloUnique(k - r, 0, k - r, n);
    }
  }

  /** All runs from all counters, wraps included, are fair. */
  ghost predicate AlwaysFair(group: GroupConfig)
    requires group.containers != []
  {
    forall counters: Counters, picks, i: nat, j: nat ::
      FixedGroup(counters, picks, group) && i < |group.containers| && j < |group.containers| ==>
        PickedAt(counters, picks, group, i) <= PickedAt(counters, picks, group, j) + 1
  }

  /** Fairness holds without end exactly for group sizes dividing 2^64. */
  lemma AlwaysFairIff(group: GroupConfig)
    requires |group.containers| >= 2
    ensures AlwaysFair(group) <==> TWO_TO_THE_64 % |group.containers| == 0
  {
    var n := |group.containers|;
    var r := TWO_TO_THE_64 % n;
    if r == 0 {
      forall counters: Counters, picks, i: nat, j: nat | FixedGroup(counters, picks, group) && i < n && j < n
        ensures PickedAt(counters, picks, group, i) <= PickedAt(counters, picks, group, j) + 1
      {
        Fair(counters, picks, group, i, j);
      }
    } else {
      assert IsRemainder(r, n);
      var counters := BeforeWrap(group, r);
      PicksAroundWrap(group, r, 2 * r);
      OnlyRepeated(group, 2 * r);
      assert FixedGroup(counters, Repeat(group, 2 * r), group);
      assert PickedAt(counters, Repeat(group, 2 * r), group, 0) >
             PickedAt(counters, Repeat(group, 2 * r), group, n - 1) + 1;
    }
  }

  // ---------------------------------------------------------------- a fresh router

  /** From a fresh router, the picks of a group go through its members in order from the first, whatever
      other groups are picked in between. */
  lemma FreshRouterStartsAtFirst(picks: seq<GroupConfig>, group: GroupConfig)
    requires |group.containers| >= 2 && Uses(picks, group.name) < TWO_TO_THE_64
    ensures Position(After(map[], picks), group) == Uses(picks, group.name) % |group.containers|
  {
    OnlyOwnPicksCount(map[], picks, group.name);
    ModuloUnique(Uses(picks, group.name), 0, Uses(picks, group.name), TWO_TO_THE_64);
  }

  /** The very first pick is the first member, the next one the second. */
  lemma FirstTwoPicks(group: GroupConfig)
    requires group.containers != []
    ensures Position(map[], group) == 0
    ensures |group.containers| >= 2 ==> Position(AfterPick(map[], group), group) == 1 % |group.containers|
  {}
}
