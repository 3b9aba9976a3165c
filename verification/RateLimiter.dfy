/** gateway/server.go: at most one request per interval and address, with stale addresses evicted. */
module RateLimiter {
  type Seen = map<string, int>

  /** What one request does: the clock is read once for the check and once for the stamp. */
  predicate Allowed(seen: Seen, minInterval: int, ip: string, checkedAt: int) {
    ip !in seen || checkedAt - seen[ip] >= minInterval
  }

  function AfterAllow(seen: Seen, minInterval: int, ip: string, checkedAt: int, stampedAt: int): Seen {
    if Allowed(seen, minInterval, ip, checkedAt) then seen[ip := stampedAt] else seen
  }

  function AfterEvict(seen: Seen, minInterval: int, now: int): Seen {
    map ip | ip in seen && !(seen[ip] < now - 2 * minInterval) :: seen[ip]
  }

  class Limiter {
    var lastSeen: Seen
    const minInterval: int

    constructor (minInterval: int)
      ensures this.minInterval == minInterval && lastSeen == map[]
    {
      this.minInterval := minInterval;
      lastSeen := map[];
    }

    method Allow(ip: string, checkedAt: int, stampedAt: int) returns (ok: bool)
      modifies this
      ensures ok <==> Allowed(old(lastSeen), minInterval, ip, checkedAt)
      ensures lastSeen == AfterAllow(old(lastSeen), minInterval, ip, checkedAt, stampedAt)
    {
      if ip !in lastSeen || checkedAt - lastSeen[ip] >= minInterval {
        lastSeen := lastSeen[ip := stampedAt];
        return true;
      }
      return false;
    }

    method EvictStale(now: int)
      modifies this
      ensures lastSeen == AfterEvict(old(lastSeen), minInterval, now)
      ensures forall ip :: ip in lastSeen <==>
                ip in old(lastSeen) && old(lastSeen)[ip] >= now - minInterval - minInterval
      ensures forall ip :: ip in lastSeen ==> lastSeen[ip] == old(lastSeen)[ip]
    {
      var cutoff := now - 2 * minInterval;
      var todo := lastSeen.Keys;
      ghost var was := lastSeen;
      while todo != {}
        invariant todo <= was.Keys && todo <= lastSeen.Keys
        invariant forall ip :: ip in lastSeen <==> ip in was && (ip in todo || !(was[ip] < cutoff))
        invariant forall ip :: ip in lastSeen ==> lastSeen[ip] == was[ip]
      {
        var ip :| ip in todo;
        if lastSeen[ip] < cutoff {
          lastSeen := lastSeen - {ip};
        }
        todo := todo - {ip};
      }
    }
  }

  // ---------------------------------------------------------------- runs

  datatype Op =
    | Request(ip: string, checkedAt: int, stampedAt: int)
    | Evict(now: int)

  function First(op: Op): int { if op.Request? then op.checkedAt else op.now }

  function Last(op: Op): int { if op.Request? then op.stampedAt else op.now }

  /** A clock that never runs backwards. */
  predicate Monotone(ops: seq<Op>) {
    && (forall i :: 0 <= i < |ops| ==> First(ops[i]) <= Last(ops[i]))
    && (forall i, j :: 0 <= i < j < |ops| ==> Last(ops[i]) <= First(ops[j]))
  }

  function Apply(seen: Seen, minInterval: int, op: Op, evicting: bool): Seen {
    match op
    case Request(ip, c, s) => AfterAllow(seen, minInterval, ip, c, s)
    case Evict(now) => if evicting then AfterEvict(seen, minInterval, now) else seen
  }

  /** The table after the first `n` operations, by the limiter as it is or by one that never evicts. */
  function Table(ops: seq<Op>, n: nat, minInterval: int, evicting: bool): Seen
    requires n <= |ops|
  {
    if n == 0 then map[] else Apply(Table(ops, n - 1, minInterval, evicting), minInterval, ops[n - 1], evicting)
  }

  /** Whether operation `i` is a request that is let through. */
  predicate Grants(ops: seq<Op>, i: nat, minInterval: int, evicting: bool)
    requires i < |ops|
  {
    ops[i].Request? && Allowed(Table(ops, i, minInterval, evicting), minInterval, ops[i].ip, ops[i].checkedAt)
  }

  /** The evicting table is the full one without entries too old to matter at or after `now`. */
  ghost predicate Agree(lean: Seen, full: Seen, minInterval: int, now: int) {
    && (forall ip :: ip in lean ==> ip in full && lean[ip] == full[ip])
    && (forall ip :: ip in full && ip !in lean ==> now - full[ip] >= minInterval)
  }

  lemma {:induction false} TablesAgree(ops: seq<Op>, n: nat, minInterval: nat, now: int)
    requires Monotone(ops) && n <= |ops|
    requires n > 0 ==> Last(ops[n - 1]) <= now
    ensures Agree(Table(ops, n, minInterval, true), Table(ops, n, minInterval, false), minInterval, now)
  {
    if n > 0 {
      TablesAgree(ops, n - 1, minInterval, First(ops[n - 1]));
    }
  }

  /** Evictions interleaved anywhere never change an answer. */
  lemma EvictionIsInvisible(ops: seq<Op>, i: nat, minInterval: nat)
    requires Monotone(ops) && i < |ops|
    ensures Grants(ops, i, minInterval, true) <==> Grants(ops, i, minInterval, false)
  {
    if i > 0 { assert Last(ops[i - 1]) <= First(ops[i]); }
    TablesAgree(ops, i, minInterval, First(ops[i]));
  }

  lemma {:induction false} StampStays(ops: seq<Op>, i: nat, n: nat, minInterval: nat)
    requires Monotone(ops) && i < n <= |ops| && Grants(ops, i, minInterval, false)
    ensures
      var t := Table(ops, n, minInterval, false);
      ops[i].ip in t && ops[i].stampedAt <= t[ops[i].ip]
  {
    if n > i + 1 {
      StampStays(ops, i, n - 1, minInterval);
      assert Last(ops[i]) <= First(ops[n - 1]);
    }
  }

  /** Two requests of one address that are let through are an interval apart. */
  lemma GrantsAreSpaced(ops: seq<Op>, i: nat, j: nat, minInterval: nat)
    requires Monotone(ops) && i < j < |ops| && ops[i].Request? && ops[j].Request? && ops[i].ip == ops[j].ip
    requires Grants(ops, i, minInterval, true) && Grants(ops, j, minInterval, true)
    ensures ops[j].checkedAt - ops[i].stampedAt >= minInterval
  {
    EvictionIsInvisible(ops, i, minInterval);
    EvictionIsInvisible(ops, j, minInterval);
    StampStays(ops, i, j, minInterval);
  }

  lemma {:induction false} StampHasRequest(ops: seq<Op>, n: nat, minInterval: nat, ip: string) returns (i: nat)
    requires n <= |ops| && ip in Table(ops, n, minInterval, false)
    ensures i < n && ops[i].Request? && ops[i].ip == ip && Grants(ops, i, minInterval, false)
    ensures Table(ops, n, minInterval, false)[ip] == ops[i].stampedAt
  {
    var op := ops[n - 1];
    if op.Request? && op.ip == ip && Grants(ops, n - 1, minInterval, false) { return n - 1; }
    i := StampHasRequest(ops, n - 1, minInterval, ip);
  }

  ghost predicate FarFrom(ops: seq<Op>, i: nat, j: nat, minInterval: int)
    requires i < j < |ops|
  {
    ops[i].Request? && ops[j].Request? && ops[i].ip == ops[j].ip && Grants(ops, i, minInterval, true) ==>
      ops[j].checkedAt - ops[i].stampedAt >= minInterval
  }

  /** A request is let through exactly when every earlier granted request of its address is at least
      an interval old. */
  lemma GrantedExactlyWhenSpaced(ops: seq<Op>, j: nat, minInterval: nat)
    requires Monotone(ops) && j < |ops| && ops[j].Request?
    ensures Grants(ops, j, minInterval, true) <==> forall i :: 0 <= i < j ==> FarFrom(ops, i, j, minInterval)
  {
    if Grants(ops, j, minInterval, true) {
      forall i | 0 <= i < j ensures FarFrom(ops, i, j, minInterval) {
        if ops[i].Request? && ops[i].ip == ops[j].ip && Grants(ops, i, minInterval, true) {
          GrantsAreSpaced(ops, i, j, minInterval);
        }
      }
    } else {
      EvictionIsInvisible(ops, j, minInterval);
      var i := StampHasRequest(ops, j, minInterval, ops[j].ip);
      EvictionIsInvisible(ops, i, minInterval);
      assert !FarFrom(ops, i, j, minInterval);
    }
  }
}
