/** The configuration entities of gateway/config.go and the lookup maps built from them. */
module Config {
  import opened Wrappers

  /** A container entry. Durations are integers; the fields that only dress the
      web pages or address the network are not part of this model. */
  datatype ContainerConfig = ContainerConfig(
    name: string,
    host: string,
    targetPort: string,
    idleTimeout: int,
    dependsOn: seq<string>,
    scheduleStart: string,
    scheduleStop: string,
    scheduleTimezone: string)

  datatype GroupConfig = GroupConfig(name: string, host: string, strategy: string, containers: seq<string>)

  datatype AdminAuth = AdminAuth(authMethod: string, username: string, password: string, token: string)

  datatype GlobalConfig = GlobalConfig(port: string, scheduleTimezone: string, adminAuth: AdminAuth)

  datatype GatewayConfig = GatewayConfig(
    gateway: GlobalConfig, containers: seq<ContainerConfig>, groups: seq<GroupConfig>)

  // ---------------------------------------------------------------- linear scans

  /** The last entry satisfying `p`: what a map filled in list order ends up holding. */
  function LastWhere<T>(s: seq<T>, p: T -> bool): (r: Option<T>)
    ensures r.Some? ==> r.value in s && p(r.value)
    ensures r.None? ==> forall x :: x in s ==> !p(x)
  {
    if s == [] then None
    else if p(s[|s| - 1]) then Some(s[|s| - 1])
    else LastWhere(s[..|s| - 1], p)
  }

  /** The first entry satisfying `p`: what a linear scan with an early return finds. */
  function FirstWhere<T>(s: seq<T>, p: T -> bool): (r: Option<T>)
    ensures r.Some? ==> r.value in s && p(r.value)
    ensures r.None? ==> forall x :: x in s ==> !p(x)
  {
    if s == [] then None
    else if p(s[0]) then Some(s[0])
    else FirstWhere(s[1..], p)
  }

  function Lookup<K, V>(m: map<K, V>, k: K): Option<V> {
    if k in m then Some(m[k]) else None
  }

  function ByName(n: string): ContainerConfig -> bool { (c: ContainerConfig) => c.name == n }

  function ByHost(h: string): ContainerConfig -> bool { (c: ContainerConfig) => c.host != "" && c.host == h }

  function GroupByHost(h: string): GroupConfig -> bool { (g: GroupConfig) => g.host != "" && g.host == h }

  // ---------------------------------------------------------------- the index builders

  /** Name index: a later entry with the same name replaces an earlier one. */
  method BuildContainerMap(cfgs: seq<ContainerConfig>) returns (m: map<string, ContainerConfig>)
    ensures forall n :: Lookup(m, n) == LastWhere(cfgs, ByName(n))
    ensures m == ContainerMap(cfgs)
  {
    m := map[];
    for i := 0 to |cfgs|
      invariant forall n :: Lookup(m, n) == LastWhere(cfgs[..i], ByName(n))
    {
      assert cfgs[..i + 1][..i] == cfgs[..i];
      m := m[cfgs[i].name := cfgs[i]];
    }
    assert cfgs[..|cfgs|] == cfgs;
    assert m == ContainerMap(cfgs) by {
      forall n ensures Lookup(m, n) == Lookup(ContainerMap(cfgs), n) { ContainerMapLookup(cfgs, n); }
      MapsEqual(m, ContainerMap(cfgs));
    }
  }

  /** Host index over the entries that have a host. */
  method BuildHostIndex(cfgs: seq<ContainerConfig>) returns (idx: map<string, ContainerConfig>)
    ensures forall h :: Lookup(idx, h) == LastWhere(cfgs, ByHost(h))
  {
    idx := map[];
    for i := 0 to |cfgs|
      invariant forall h :: Lookup(idx, h) == LastWhere(cfgs[..i], ByHost(h))
    {
      assert cfgs[..i + 1][..i] == cfgs[..i];
      if cfgs[i].host != "" {
        idx := idx[cfgs[i].host := cfgs[i]];
      }
    }
    assert cfgs[..|cfgs|] == cfgs;
  }

  method BuildGroupHostIndex(groups: seq<GroupConfig>) returns (idx: map<string, GroupConfig>)
    ensures forall h :: Lookup(idx, h) == LastWhere(groups, GroupByHost(h))
  {
    idx := map[];
    for i := 0 to |groups|
      invariant forall h :: Lookup(idx, h) == LastWhere(groups[..i], GroupByHost(h))
    {
      assert groups[..i + 1][..i] == groups[..i];
      if groups[i].host != "" {
        idx := idx[groups[i].host := groups[i]];
      }
    }
    assert groups[..|groups|] == groups;
  }

  /** The name index as a value. */
  function ContainerMap(cfgs: seq<ContainerConfig>): (m: map<string, ContainerConfig>)
    ensures forall n :: n in m <==> exists c :: c in cfgs && c.name == n
    ensures forall n :: n in m ==> m[n] in cfgs && m[n].name == n
  {
    if cfgs == [] then map[]
    else
      var c := cfgs[|cfgs| - 1];
      ContainerMap(cfgs[..|cfgs| - 1])[c.name := c]
  }

  lemma {:induction false} ContainerMapLookup(cfgs: seq<ContainerConfig>, n: string)
    ensures Lookup(ContainerMap(cfgs), n) == LastWhere(cfgs, ByName(n))
  {
    if cfgs != [] { ContainerMapLookup(cfgs[..|cfgs| - 1], n); }
  }

  lemma MapsEqual<K, V>(a: map<K, V>, b: map<K, V>)
    requires forall k :: Lookup(a, k) == Lookup(b, k)
    ensures a == b
  {
    forall k | k in a ensures k in b && b[k] == a[k] { assert Lookup(a, k) == Lookup(b, k); }
    forall k | k in b ensures k in a { assert Lookup(a, k) == Lookup(b, k); }
  }

  /** When at most one position satisfies `p`, first and last match are the same entry. */
  lemma {:induction false} UniqueMatch<T>(s: seq<T>, p: T -> bool)
    requires forall i, j :: 0 <= i < j < |s| ==> !(p(s[i]) && p(s[j]))
    ensures FirstWhere(s, p) == LastWhere(s, p)
  {
    if s != [] {
      if p(s[0]) {
        LastIsFirst(s, p);
      } else {
        UniqueMatch(s[1..], p);
        LastOfTail(s, p);
      }
    }
  }

  lemma {:induction false} LastIsFirst<T>(s: seq<T>, p: T -> bool)
    requires |s| > 0 && p(s[0])
    requires forall i :: 0 < i < |s| ==> !p(s[i])
    ensures LastWhere(s, p) == Some(s[0])
  {
    if |s| > 1 { LastIsFirst(s[..|s| - 1], p); }
  }

  lemma {:induction false} LastOfTail<T>(s: seq<T>, p: T -> bool)
    requires |s| > 0 && !p(s[0])
    ensures LastWhere(s, p) == LastWhere(s[1..], p)
  {
    if |s| > 1 {
      assert s[1..][|s[1..]| - 1] == s[|s| - 1];
      assert s[..|s| - 1][1..] == s[1..][..|s[1..]| - 1];
      LastOfTail(s[..|s| - 1], p);
    }
  }
}
