/** Health-ranked proxy selection with cooldowns, sticky leases and rotation counters. */
module ProxyPolicy {
  import opened Ordering
  import opened Text
  import opened Wrappers

  type Url = string
  type RotationKey = (string, string, string)
  type LeaseKey = (string, string)

  datatype ProxyHealth = ProxyHealth(
    healthScore: real, banScore: int, consecutiveFailures: int, cooldownUntil: real, lastReason: Option<string>)

  const NEW_PROXY := ProxyHealth(100.0, 0, 0, 0.0, None)

  datatype Lease = Lease(proxyUrl: Url, usesLeft: int)

  /** The limits in force for one store, after `_resolve_*`. */
  datatype Limits = Limits(banThreshold: int, maxFailures: int, cooldownSeconds: int)

  datatype PolicyState = PolicyState(
    health: map<Url, ProxyHealth>, leases: map<LeaseKey, Lease>, counters: map<RotationKey, nat>)

  // ----- proxy URLs

  predicate StartsWith(s: string, prefix: string) {
    prefix <= s
  }

  function NormalizeProxyUrl(url: string): Option<Url> {
    var clean := Strip(url);
    if clean == "" || StartsWith(clean, "#") then None
    else if !StartsWith(clean, "http://") && !StartsWith(clean, "https://") then Some("http://" + clean)
    else Some(clean)
  }

  lemma {:induction false} StripEnds(s: string)
    ensures StripRight(s) == [] || !IsSpace(StripRight(s)[|StripRight(s)| - 1])
    ensures StripRight(s) <= s
  {
    if s != [] && IsSpace(s[|s| - 1]) { StripEnds(s[..|s| - 1]); }
  }

  /** The URLs of a pool are their own normal form, so marks and picks speak of the same key. */
  lemma NormalizeProxyUrlIdempotent(url: string)
    ensures NormalizeProxyUrl(url).Some? ==> NormalizeProxyUrl(NormalizeProxyUrl(url).value) == NormalizeProxyUrl(url)
  {
    var clean := Strip(url);
    StripLeftStartsWithInk(url);
    StripEnds(StripLeft(url));
    if NormalizeProxyUrl(url).Some? {
      var u := NormalizeProxyUrl(url).value;
      assert u[0] == clean[0] || u[0] == 'h';
      assert u[|u| - 1] == clean[|clean| - 1];
      assert StripLeft(u) == u && StripRight(u) == u;
    }
  }

  /** Blank lines and comments are no proxies; a URL with a scheme stays, one without gets the plain one;
      whitespace around it never matters. */
  lemma NormalizedUrls(left: string, u: string, right: string)
    requires Blank(left) && Blank(right) && Trimmed(u)
    ensures NormalizeProxyUrl(left + u + right) ==
            if u == "" || u[0] == '#' then None
            else if (|u| >= 7 && u[..7] == "http://") || (|u| >= 8 && u[..8] == "https://") then Some(u)
            else Some("http://" + u)
  {
    StripExactly(left, u, right);
    assert StartsWith(u, "#") <==> u != "" && u[0] == '#';
    assert StartsWith(u, "http://") <==> |u| >= 7 && u[..7] == "http://";
    assert StartsWith(u, "https://") <==> |u| >= 8 && u[..8] == "https://";
  }

  ghost predicate IsPool(urls: seq<Url>) {
    NoDuplicates(urls) && forall u :: u in urls ==> NormalizeProxyUrl(u) == Some(u)
  }

  /** The distinct proxies of a list file, in file order. */
  method ParsePool(lines: seq<string>) returns (urls: seq<Url>)
    ensures IsPool(urls)
    ensures forall u :: u in urls <==> exists l :: l in lines && NormalizeProxyUrl(l) == Some(u)
  {
    urls := [];
    var seen: set<Url> := {};
    for i := 0 to |lines|
      invariant IsPool(urls) && forall u :: u in urls <==> u in seen
      invariant forall u :: u in urls <==> exists l :: l in lines[..i] && NormalizeProxyUrl(l) == Some(u)
    {
      var normalized := NormalizeProxyUrl(lines[i]);
      NormalizeProxyUrlIdempotent(lines[i]);
      assert lines[..i + 1] == lines[..i] + [lines[i]];
      assert lines[i] in lines[..i + 1];
      if normalized.Some? && normalized.value !in seen {
        seen := seen + {normalized.value};
        urls := urls + [normalized.value];
      }
    }
    assert lines[..|lines|] == lines;
  }

  // ----- health

  const BAN_LIKE_REASONS: set<string> := {
    "captcha", "access_denied", "transport_like_error_page", "cloudflare_challenge",
    "proxy_rejected", "http_403", "http_429"
  }

  datatype Outcome = Outcome(success: bool, reason: Option<string>, banLike: bool)

  predicate BanLike(lower: string -> string, reason: Option<string>) {
    lower(Strip(if reason.Some? then reason.value else "")) in BAN_LIKE_REASONS
  }

  /** One of the seven names makes a failure ban-like, whatever whitespace is around it; no reason does not. */
  lemma BanLikeReasons(lower: string -> string, left: string, reason: string, right: string)
    requires Blank(left) && Blank(right) && Trimmed(reason) && lower(reason) == reason && lower("") == ""
    ensures BanLike(lower, Some(left + reason + right)) <==>
              reason in ["captcha", "access_denied", "transport_like_error_page", "cloudflare_challenge",
                         "proxy_rejected", "http_403", "http_429"]
    ensures !BanLike(lower, None)
  {
    StripExactly(left, reason, right);
    StripExactly("", "", "");
  }

  function ReasonOr(reason: Option<string>, default: string): Option<string> {
    if reason.None? || reason.value == "" then Some(default) else reason
  }

  predicate AtLimit(h: ProxyHealth, limits: Limits) {
    h.banScore >= limits.banThreshold || h.consecutiveFailures >= limits.maxFailures
  }

  /** The health record after one outcome. */
  function Marked(h: ProxyHealth, o: Outcome, limits: Limits, now: real): ProxyHealth {
    if o.success then
      ProxyHealth(
        if h.healthScore + 3.0 > 100.0 then 100.0 else h.healthScore + 3.0,
        if h.banScore - 1 < 0 then 0 else h.banScore - 1,
        0,
        if h.cooldownUntil <= now then 0.0 else h.cooldownUntil,
        ReasonOr(o.reason, "success"))
    else
      var drop := if o.banLike then 20.0 else 10.0;
      var h' := ProxyHealth(
        if h.healthScore - drop < 0.0 then 0.0 else h.healthScore - drop,
        h.banScore + (if o.banLike then 2 else 1),
        h.consecutiveFailures + 1,
        h.cooldownUntil,
        ReasonOr(o.reason, "failure"));
      var until := now + limits.cooldownSeconds as real;
      if AtLimit(h', limits) && until > h.cooldownUntil then h'.(cooldownUntil := until) else h'
  }

  function HealthOf(health: map<Url, ProxyHealth>, u: Url): ProxyHealth {
    if u in health then health[u] else NEW_PROXY
  }

  predicate InCooldown(health: map<Url, ProxyHealth>, u: Url, now: real) {
    u in health && health[u].cooldownUntil > now
  }

  function Selectable(health: map<Url, ProxyHealth>, pool: seq<Url>, now: real): seq<Url> {
    if pool == [] then []
    else
      var last := pool[|pool| - 1];
      Selectable(health, pool[..|pool| - 1], now) + if InCooldown(health, last, now) then [] else [last]
  }

  lemma SelectableSnoc(health: map<Url, ProxyHealth>, pool: seq<Url>, u: Url, now: real)
    ensures Selectable(health, pool + [u], now) ==
            Selectable(health, pool, now) + if InCooldown(health, u, now) then [] else [u]
  {
    assert (pool + [u])[..|pool|] == pool;
  }

  lemma {:induction false} SelectableMembers(health: map<Url, ProxyHealth>, pool: seq<Url>, now: real)
    ensures forall u :: u in Selectable(health, pool, now) <==> u in pool && !InCooldown(health, u, now)
    ensures NoDuplicates(pool) ==> NoDuplicates(Selectable(health, pool, now))
  {
    if pool != [] {
      SelectableMembers(health, pool[..|pool| - 1], now);
      assert pool == pool[..|pool| - 1] + [pool[|pool| - 1]];
    }
  }

  // ----- rank

  /** Fewest ban points first, then best health, then fewest failures in a row. */
  predicate RankLe(a: ProxyHealth, b: ProxyHealth) {
    if a.banScore != b.banScore then a.banScore < b.banScore
    else if a.healthScore != b.healthScore then a.healthScore > b.healthScore
    else a.consecutiveFailures <= b.consecutiveFailures
  }

  function RankOrder(health: map<Url, ProxyHealth>): (Url, Url) -> bool {
    (a, b) => RankLe(HealthOf(health, a), HealthOf(health, b))
  }

  function Ranked(health: map<Url, ProxyHealth>, candidates: seq<Url>): seq<Url> {
    Sort(candidates, RankOrder(health))
  }

  /** `a` is no worse than `b`: fewer ban points, or as many and better health, or both the same and no more
      failures. */
  predicate NoWorse(a: ProxyHealth, b: ProxyHealth) {
    && a.banScore <= b.banScore
    && (a.banScore == b.banScore ==> a.healthScore >= b.healthScore)
    && (a.banScore == b.banScore && a.healthScore == b.healthScore ==> a.consecutiveFailures <= b.consecutiveFailures)
  }

  /** The ranking lists the candidates from best to worst, keeping pool order among equals. */
  lemma RankedIsStableOrder(health: map<Url, ProxyHealth>, candidates: seq<Url>, u: Url)
    ensures multiset(Ranked(health, candidates)) == multiset(candidates)
    ensures |Ranked(health, candidates)| == |candidates|
    ensures forall i, j :: 0 <= i < j < |candidates| ==>
              NoWorse(HealthOf(health, Ranked(health, candidates)[i]), HealthOf(health, Ranked(health, candidates)[j]))
    ensures TiedWith(u, Ranked(health, candidates), RankOrder(health)) == TiedWith(u, candidates, RankOrder(health))
  {
    var le := RankOrder(health);
    assert TotalPreorder(le);
    SortContents(candidates, le);
    SortSorted(candidates, le);
    SortStable(u, candidates, le);
    var r := Sort(candidates, le);
    forall i, j | 0 <= i < j < |r| ensures NoWorse(HealthOf(health, r[i]), HealthOf(health, r[j])) {
      assert le(r[i], r[j]);
    }
  }

  lemma FirstPlaceIsBest(health: map<Url, ProxyHealth>, candidates: seq<Url>, u: Url)
    requires candidates != [] && u in candidates
    ensures NoWorse(HealthOf(health, Place(health, candidates, 0)), HealthOf(health, u))
  {
    var ranked := Ranked(health, candidates);
    RankedIsStableOrder(health, candidates, u);
    SameElements(ranked, candidates);
    var i :| 0 <= i < |ranked| && ranked[i] == u;
    if i > 0 { assert NoWorse(HealthOf(health, ranked[0]), HealthOf(health, ranked[i])); }
  }

  /** So the first draw of a rotation goes to a candidate that no other one beats. */
  lemma BestIsFirst(s: PolicyState, candidates: seq<Url>, key: RotationKey, u: Url)
    requires candidates != [] && u in candidates && key !in s.counters
    ensures NoWorse(HealthOf(s.health, Rotated(s, candidates, key)), HealthOf(s.health, u))
  {
    FirstPlaceIsBest(s.health, candidates, u);
    assert CounterOf(s, key) == 0;
  }

  // ----- picking

  datatype Request = Request(
    store: string, purpose: string, poolKey: string, domain: string, pool: seq<Url>, sticky: bool, stickyRequests: int)

  function RotatingKey(r: Request): RotationKey {
    (r.store, if r.sticky then r.purpose + ":sticky" else r.purpose, r.poolKey)
  }

  /** Two requests draw from one rotation exactly when store and pool agree and either sort and purpose do, or
      the purpose of the rotating one spells out that of the sticky one; the domain never matters. */
  lemma SameRotation(a: Request, b: Request)
    ensures RotatingKey(a) == RotatingKey(b) <==>
              && a.store == b.store && a.poolKey == b.poolKey
              && (a.sticky == b.sticky ==> a.purpose == b.purpose)
              && (a.sticky && !b.sticky ==> b.purpose == a.purpose + ":sticky")
              && (b.sticky && !a.sticky ==> a.purpose == b.purpose + ":sticky")
  {
    assert (a.purpose + ":sticky")[..|a.purpose|] == a.purpose && (b.purpose + ":sticky")[..|b.purpose|] == b.purpose;
    assert |a.purpose + ":sticky"| == |a.purpose| + 7 && |b.purpose + ":sticky"| == |b.purpose| + 7;
  }

  function CounterOf(s: PolicyState, k: RotationKey): nat {
    if k in s.counters then s.counters[k] else 0
  }

  /** Place `c` of the ranking, wrapping around. */
  function Place(health: map<Url, ProxyHealth>, candidates: seq<Url>, c: nat): Url
    requires candidates != []
  {
    SortContents(candidates, RankOrder(health));
    Ranked(health, candidates)[c % |candidates|]
  }

  /** The next candidate of the rotation. */
  function Rotated(s: PolicyState, candidates: seq<Url>, k: RotationKey): Url
    requires candidates != []
  {
    Place(s.health, candidates, CounterOf(s, k))
  }

  predicate LeaseUsable(s: PolicyState, r: Request, candidates: seq<Url>) {
    var k := (r.store, r.domain);
    k in s.leases && s.leases[k].proxyUrl in candidates && s.leases[k].usesLeft > 0
  }

  function Advance(s: PolicyState, k: RotationKey): PolicyState {
    s.(counters := s.counters[k := CounterOf(s, k) + 1])
  }

  /** One selection: the new state and the proxy, or none when the whole pool is cooling down. */
  function Pick(s: PolicyState, r: Request, now: real): (PolicyState, Option<Url>) {
    PickFrom(s, r, Selectable(s.health, r.pool, now))
  }

  function PickFrom(s: PolicyState, r: Request, candidates: seq<Url>): (PolicyState, Option<Url>) {
    if candidates == [] then (s, None)
    else if r.sticky && LeaseUsable(s, r, candidates) then
      var lease := s.leases[(r.store, r.domain)];
      (s.(leases := s.leases[(r.store, r.domain) := lease.(usesLeft := lease.usesLeft - 1)]), Some(lease.proxyUrl))
    else
      var k := RotatingKey(r);
      var u := Rotated(s, candidates, k);
      var advanced := Advance(s, k);
      if r.sticky then
        var left := if r.stickyRequests - 1 < 0 then 0 else r.stickyRequests - 1;
        (advanced.(leases := s.leases[(r.store, r.domain) := Lease(u, left)]), Some(u))
      else (advanced, Some(u))
  }

  /** The proxy switches of a store's access profile. */
  datatype AccessProfile = AccessProfile(proxyEnabled: Option<bool>, fallbackToProxy: bool, requiresProxy: bool)

  datatype ProxyMeta = ProxyMeta(proxy: Url, mode: string)

  /** Without hardening the first proxy of the pool is used and no table changes. With it the picked
      proxy is used, unless the network policy refuses it: that counts as a failure of the proxy. */
  function MetaBuilt(s: PolicyState, lower: string -> string, r: Request, hardened: bool, rejected: map<Url, string>,
                     limits: Limits, now: real, markNow: real): (PolicyState, Option<ProxyMeta>)
  {
    if !hardened then
      (s, if r.pool == [] || r.pool[0] in rejected then None else Some(ProxyMeta(r.pool[0], "legacy")))
    else
      match Pick(s, r, now)
      case (picked, None) => (picked, None)
      case (picked, Some(u)) =>
        if u !in rejected then (picked, Some(ProxyMeta(u, if r.sticky then "sticky" else "rotating")))
        else
          var why := if rejected[u] == "" then "proxy_rejected" else rejected[u];
          (Mark(picked, u, Outcome(false, Some(why), BanLike(lower, Some(why))), limits, markNow), None)
  }

  /** One reported outcome. */
  function Mark(s: PolicyState, url: string, o: Outcome, limits: Limits, now: real): PolicyState {
    match NormalizeProxyUrl(url)
    case None => s
    case Some(u) => s.(health := s.health[u := Marked(HealthOf(s.health, u), o, limits, now)])
  }

  /** The module-level tables of proxy_policy.py and the functions that update them. */
  class ProxyPool {
    var health: map<Url, ProxyHealth>
    var leases: map<LeaseKey, Lease>
    var counters: map<RotationKey, nat>

    constructor ()
      ensures State() == PolicyState(map[], map[], map[])
    {
      health, leases, counters := map[], map[], map[];
    }

    ghost function State(): PolicyState
      reads this
    {
      PolicyState(health, leases, counters)
    }

    /** `hardened` is false when the feature is off for this store or altogether. */
    method MarkProxyResult(lower: string -> string, proxyUrl: string, success: bool, reason: Option<string>,
                           hardened: bool, limits: Limits, now: real)
      modifies this
      ensures State() ==
              if hardened
              then Mark(old(State()), proxyUrl, Outcome(success, reason, BanLike(lower, reason)), limits, now)
              else old(State())
    {
      var normalized := NormalizeProxyUrl(proxyUrl);
      if normalized.None? || !hardened { return; }
      var u := normalized.value;
      var state := if u in health then health[u] else NEW_PROXY;
      if success {
        state := state.(consecutiveFailures := 0);
        state := state.(banScore := if state.banScore - 1 > 0 then state.banScore - 1 else 0);
        state := state.(healthScore := if state.healthScore + 3.0 < 100.0 then state.healthScore + 3.0 else 100.0);
        state := state.(lastReason := ReasonOr(reason, "success"));
        if state.cooldownUntil <= now {
          state := state.(cooldownUntil := 0.0);
        }
        health := health[u := state];
        return;
      }
      var banLike := BanLike(lower, reason);
      state := state.(consecutiveFailures := state.consecutiveFailures + 1);
      state := state.(banScore := state.banScore + if banLike then 2 else 1);
      var drop := if banLike then 20.0 else 10.0;
      state := state.(healthScore := if state.healthScore - drop > 0.0 then state.healthScore - drop else 0.0);
      state := state.(lastReason := ReasonOr(reason, "failure"));
      if state.banScore >= limits.banThreshold || state.consecutiveFailures >= limits.maxFailures {
        var until := now + limits.cooldownSeconds as real;
        state := state.(cooldownUntil := if state.cooldownUntil < until then until else state.cooldownUntil);
      }
      health := health[u := state];
    }

    method SelectRotatingProxy(candidates: seq<Url>, key: RotationKey) returns (u: Url)
      requires candidates != []
      modifies this`counters
      ensures u == Rotated(old(State()), candidates, key)
      ensures State() == Advance(old(State()), key)
    {
      SortContents(candidates, RankOrder(health));
      var ranked := Sort(candidates, RankOrder(health));
      var counter: nat := if key in counters then counters[key] else 0;
      counters := counters[key := counter + 1];
      u := ranked[counter % |ranked|];
    }

    method SelectStickyProxy(candidates: seq<Url>, r: Request) returns (u: Url)
      requires candidates != [] && r.sticky
      modifies this`leases, this`counters
      ensures (State(), Some(u)) == PickFrom(old(State()), r, candidates)
    {
      var key := (r.store, r.domain);
      if key in leases && leases[key].proxyUrl in candidates && leases[key].usesLeft > 0 {
        leases := leases[key := leases[key].(usesLeft := leases[key].usesLeft - 1)];
        return leases[key].proxyUrl;
      }
      u := SelectRotatingProxy(candidates, (r.store, r.purpose + ":sticky", r.poolKey));
      var usesLeft := if 0 > r.stickyRequests - 1 then 0 else r.stickyRequests - 1;
      leases := leases[key := Lease(u, usesLeft)];
    }

    method SelectableProxies(pool: seq<Url>, now: real) returns (selectable: seq<Url>)
      ensures selectable == Selectable(health, pool, now)
    {
      selectable := [];
      ghost var done := [];
      for i := 0 to |pool|
        invariant done == pool[..i] && selectable == Selectable(health, done, now)
      {
        SelectableSnoc(health, done, pool[i], now);
        if !InCooldown(health, pool[i], now) {
          selectable := selectable + [pool[i]];
        }
        done := done + [pool[i]];
      }
      assert done == pool;
    }

    method SelectProxyByPolicy(r: Request, now: real) returns (selected: Option<Url>)
      modifies this`leases, this`counters
      ensures (State(), selected) == Pick(old(State()), r, now)
    {
      var selectable := SelectableProxies(r.pool, now);
      if selectable == [] { return None; }
      var u;
      if r.sticky {
        u := SelectStickyProxy(selectable, r);
      } else {
        u := SelectRotatingProxy(selectable, (r.store, r.purpose, r.poolKey));
      }
      selected := Some(u);
    }

    /** `rejected` gives the network policy's reason for each proxy it refuses. A store that is not
        offered proxies changes nothing; otherwise see `MetaBuilt`. */
    method BuildProxyMeta(lower: string -> string, profile: AccessProfile, r: Request, hardened: bool,
                          rejected: map<Url, string>,
                          limits: Limits, now: real, markNow: real)
      returns (meta: Option<ProxyMeta>)
      modifies this
      ensures profile.proxyEnabled == Some(false) || (!profile.fallbackToProxy && !profile.requiresProxy) ==>
                State() == old(State()) && meta == None
      ensures profile.proxyEnabled != Some(false) && (profile.fallbackToProxy || profile.requiresProxy) ==>
                (State(), meta) == MetaBuilt(old(State()), lower, r, hardened, rejected, limits, now, markNow)
    {
      if profile.proxyEnabled == Some(false) { return None; }
      if !profile.fallbackToProxy && !profile.requiresProxy { return None; }
      if r.pool == [] { return None; }
      var proxy;
      if hardened {
        proxy := SelectProxyByPolicy(r, now);
      } else {
        proxy := Some(r.pool[0]);
      }
      if proxy.None? { return None; }
      if proxy.value in rejected {
        var why := if rejected[proxy.value] == "" then "proxy_rejected" else rejected[proxy.value];
        MarkProxyResult(lower, proxy.value, false, Some(why), hardened, limits, markNow);
        return None;
      }
      var mode := if !hardened then "legacy" else if r.sticky then "sticky" else "rotating";
      meta := Some(ProxyMeta(proxy.value, mode));
    }
  }
}
