/** Guarantees of the proxy policy over whole runs of selections and reported outcomes. */
module ProxyPolicyRuns {
  import opened Ordering
  import opened Wrappers
  import opened ProxyPolicy

  datatype Event =
    | Picked(request: Request, time: real)
    | Reported(url: string, outcome: Outcome, limits: Limits, time: real)

  function Step(s: PolicyState, e: Event): PolicyState {
    match e
    case Picked(r, now) => Pick(s, r, now).0
    case Reported(url, o, limits, now) => Mark(s, url, o, limits, now)
  }

  function Run(s: PolicyState, es: seq<Event>): PolicyState {
    if es == [] then s else Step(Run(s, es[..|es| - 1]), es[|es| - 1])
  }

  /** What event `i` of the run hands out; reports hand out nothing. */
  function Chosen(s: PolicyState, es: seq<Event>, i: nat): Option<Url>
    requires i < |es|
  {
    if es[i].Picked? then Pick(Run(s, es[..i]), es[i].request, es[i].time).1 else None
  }

  lemma {:induction false} RunSplit(s: PolicyState, es: seq<Event>, k: nat)
    requires k <= |es|
    ensures Run(s, es) == Run(Run(s, es[..k]), es[k..])
  {
    if k == |es| {
      assert es[..k] == es;
    } else {
      var rest, last := es[..|es| - 1], es[|es| - 1];
      RunSplit(s, rest, k);
      assert rest[..k] == es[..k] && rest[k..] + [last] == es[k..];
      RunAppend(Run(s, es[..k]), rest[k..], last);
    }
  }

  lemma RunAppend(s: PolicyState, es: seq<Event>, e: Event)
    ensures Run(s, es + [e]) == Step(Run(s, es), e)
  {
    assert (es + [e])[..|es|] == es;
  }

  lemma ChosenSplit(s: PolicyState, es: seq<Event>, k: nat, i: nat)
    requires k <= i < |es|
    ensures Chosen(s, es, i) == Chosen(Run(s, es[..k]), es[k..], i - k)
  {
    RunSplit(s, es[..i], k);
    assert es[..i][..k] == es[..k] && es[..i][k..] == es[k..][..i - k];
  }

  // ----- what one selection can return

  lemma RotatedIsCandidate(s: PolicyState, candidates: seq<Url>, k: RotationKey)
    requires candidates != []
    ensures Rotated(s, candidates, k) in candidates
  {
    SortContents(candidates, RankOrder(s.health));
    var ranked := Ranked(s.health, candidates);
    SameElements(ranked, candidates);
    assert ranked[CounterOf(s, k) % |candidates|] in ranked;
  }

  lemma PickFromPool(s: PolicyState, r: Request, now: real)
    ensures Pick(s, r, now).1.None? <==> forall u :: u in r.pool ==> InCooldown(s.health, u, now)
    ensures Pick(s, r, now).1.Some? ==>
              Pick(s, r, now).1.value in r.pool && !InCooldown(s.health, Pick(s, r, now).1.value, now)
    ensures Pick(s, r, now).0.health == s.health
  {
    SelectableMembers(s.health, r.pool, now);
    var candidates := Selectable(s.health, r.pool, now);
    if candidates != [] {
      assert candidates[0] in candidates;
      RotatedIsCandidate(s, candidates, RotatingKey(r));
    }
  }

  // ----- cooldown safety

  ghost predicate CoolingUntil(s: PolicyState, p: Url, until: real) {
    p in s.health && s.health[p].cooldownUntil >= until
  }

  lemma StepKeepsCooldown(s: PolicyState, e: Event, p: Url, until: real)
    requires CoolingUntil(s, p, until) && e.time < until
    ensures CoolingUntil(Step(s, e), p, until)
    ensures e.Picked? ==> Pick(s, e.request, e.time).1 != Some(p)
  {
    if e.Picked? { PickFromPool(s, e.request, e.time); }
  }

  /** Once a proxy is cooling down until `until`, nothing reported later, success or failure, lets
      any selection, rotating or sticky, return it before then. */
  lemma {:induction false} CooldownIsSafe(s: PolicyState, es: seq<Event>, p: Url, until: real)
    requires CoolingUntil(s, p, until)
    requires forall i :: 0 <= i < |es| ==> es[i].time < until
    ensures CoolingUntil(Run(s, es), p, until)
    ensures forall i :: 0 <= i < |es| ==> Chosen(s, es, i) != Some(p)
  {
    if es != [] {
      var rest := es[..|es| - 1];
      CooldownIsSafe(s, rest, p, until);
      StepKeepsCooldown(Run(s, rest), es[|es| - 1], p, until);
      forall i | 0 <= i < |rest| ensures Chosen(s, es, i) != Some(p) {
        assert es[..i] == rest[..i];
        assert Chosen(s, rest, i) == Chosen(s, es, i);
      }
    }
  }

  // ----- spacing of retries on a proxy that keeps failing

  ghost predicate ReportsOn(e: Event, p: Url) {
    e.Reported? && NormalizeProxyUrl(e.url) == Some(p)
  }

  /** One more failure takes the proxy to a limit, however mild. */
  ghost predicate OnTheBrink(h: ProxyHealth, ban: int, failures: int) {
    h.banScore + 1 >= ban || h.consecutiveFailures + 1 >= failures
  }

  ghost predicate FailsUnder(e: Event, p: Url, ban: int, failures: int, cooldown: int) {
    ReportsOn(e, p) ==>
      && !e.outcome.success && e.limits.banThreshold <= ban
      && e.limits.maxFailures <= failures && e.limits.cooldownSeconds >= cooldown
  }

  /** Everything reported about `p` is a failure, under limits no laxer than these. */
  ghost predicate KeepsFailing(es: seq<Event>, p: Url, ban: int, failures: int, cooldown: int) {
    forall i :: 0 <= i < |es| ==> FailsUnder(es[i], p, ban, failures, cooldown)
  }

  lemma {:induction false} BrinkPersists(s: PolicyState, es: seq<Event>, p: Url, ban: int, failures: int,
                                         cooldown: int)
    requires OnTheBrink(HealthOf(s.health, p), ban, failures) && KeepsFailing(es, p, ban, failures, cooldown)
    ensures OnTheBrink(HealthOf(Run(s, es).health, p), ban, failures)
  {
    if es != [] {
      var rest, last := es[..|es| - 1], es[|es| - 1];
      assert FailsUnder(last, p, ban, failures, cooldown);
      assert forall i :: 0 <= i < |rest| ==> rest[i] == es[i];
      BrinkPersists(s, rest, p, ban, failures, cooldown);
      BrinkStep(Run(s, rest), last, p, ban, failures, cooldown);
    }
  }

  lemma BrinkStep(s: PolicyState, e: Event, p: Url, ban: int, failures: int, cooldown: int)
    requires OnTheBrink(HealthOf(s.health, p), ban, failures) && FailsUnder(e, p, ban, failures, cooldown)
    ensures OnTheBrink(HealthOf(Step(s, e).health, p), ban, failures)
  {
    if e.Picked? { PickFromPool(s, e.request, e.time); }
  }

  ghost predicate TimesNonDecreasing(es: seq<Event>) {
    forall i, j :: 0 <= i < j < |es| ==> es[i].time <= es[j].time
  }

  lemma ChosenInSlice(s: PolicyState, es: seq<Event>, k: nat, j: nat)
    requires k <= j < |es|
    ensures Chosen(s, es, j) == Chosen(Run(s, es[..k]), es[k..j + 1], j - k)
  {
    ChosenSplit(s, es, k, j);
    assert es[k..][..j - k] == es[k..j + 1][..j - k];
  }

  /** While `p` cools down until `until`, no earlier selection returns it. */
  lemma PickWaits(s: PolicyState, es: seq<Event>, p: Url, k: nat, j: nat, until: real)
    requires TimesNonDecreasing(es) && k <= j < |es|
    requires CoolingUntil(Run(s, es[..k]), p, until)
    ensures es[j].time < until ==> Chosen(s, es, j) != Some(p)
  {
    if es[j].time < until {
      var slice := es[k..j + 1];
      ChosenInSlice(s, es, k, j);
      forall i | 0 <= i < |slice| ensures slice[i].time < until { assert slice[i] == es[k + i]; }
      CooldownIsSafe(Run(s, es[..k]), slice, p, until);
    }
  }

  lemma RunSnoc(s: PolicyState, es: seq<Event>, k: nat)
    requires k < |es|
    ensures Run(s, es[..k + 1]) == Step(Run(s, es[..k]), es[k])
  {
    assert es[..k + 1][..k] == es[..k];
  }

  /** A selection of `p` after a failure that met a limit comes a whole cooldown later. */
  lemma NextPickAfterFailure(s: PolicyState, es: seq<Event>, p: Url, k: nat, j: nat, ban: int, failures: int,
                             cooldown: int)
    requires TimesNonDecreasing(es) && k < j < |es| && ReportsOn(es[k], p) && Chosen(s, es, j) == Some(p)
    requires OnTheBrink(HealthOf(s.health, p), ban, failures) && KeepsFailing(es, p, ban, failures, cooldown)
    ensures es[j].time >= es[k].time + cooldown as real
  {
    BrinkPersists(s, es[..k], p, ban, failures, cooldown);
    RunSnoc(s, es, k);
    PickWaits(s, es, p, k + 1, j, es[k].time + cooldown as real);
  }

  ghost predicate ReportedWithin(es: seq<Event>, p: Url, lo: nat, hi: nat) {
    exists k :: lo < k < hi && k < |es| && ReportsOn(es[k], p)
  }

  /** Between any two of its selections `p` is reported on, as a sequential caller does. */
  ghost predicate ReportedBetween(s: PolicyState, es: seq<Event>, p: Url, picks: seq<nat>) {
    && (forall a :: 0 <= a < |picks| ==> picks[a] < |es| && Chosen(s, es, picks[a]) == Some(p))
    && (forall a, b :: 0 <= a && b == a + 1 < |picks| ==> ReportedWithin(es, p, picks[a], picks[b]))
  }

  /** A proxy at its limit that keeps failing is selected at least a cooldown apart. */
  lemma RetriesAreSpaced(s: PolicyState, es: seq<Event>, p: Url, picks: seq<nat>, n: nat, ban: int, failures: int,
                         cooldown: int)
    requires TimesNonDecreasing(es) && ReportedBetween(s, es, p, picks) && n + 1 < |picks|
    requires OnTheBrink(HealthOf(s.health, p), ban, failures) && KeepsFailing(es, p, ban, failures, cooldown)
    ensures es[picks[n + 1]].time >= es[picks[n]].time + cooldown as real
  {
    assert ReportedWithin(es, p, picks[n], picks[n + 1]);
    var k :| picks[n] < k < picks[n + 1] && k < |es| && ReportsOn(es[k], p);
    NextPickAfterFailure(s, es, p, k, picks[n + 1], ban, failures, cooldown);
    assert es[picks[n]].time <= es[k].time;
  }

  /** `n` cooldowns, one after the other. */
  function Cooldowns(n: nat, cooldown: int): (total: int)
    ensures total == n * cooldown
  {
    if n == 0 then 0 else Cooldowns(n - 1, cooldown) + cooldown
  }

  /** So `n + 1` selections of it take at least `n` cooldowns. */
  lemma {:induction false} RetriesTakeCooldowns(s: PolicyState, es: seq<Event>, p: Url, picks: seq<nat>, n: nat,
                                                ban: int, failures: int, cooldown: int)
    requires TimesNonDecreasing(es) && ReportedBetween(s, es, p, picks) && n < |picks|
    requires OnTheBrink(HealthOf(s.health, p), ban, failures) && KeepsFailing(es, p, ban, failures, cooldown)
    ensures es[picks[n]].time >= es[picks[0]].time + Cooldowns(n, cooldown) as real
  {
    if n > 0 {
      RetriesTakeCooldowns(s, es, p, picks, n - 1, ban, failures, cooldown);
      RetriesAreSpaced(s, es, p, picks, n - 1, ban, failures, cooldown);
    }
  }

  // ----- health bounds

  ghost predicate HealthInBounds(h: ProxyHealth) {
    0.0 <= h.healthScore <= 100.0 && h.banScore >= 0 && h.consecutiveFailures >= 0
  }

  lemma {:induction false} RunKeepsHealthInBounds(s: PolicyState, es: seq<Event>, p: Url)
    requires HealthInBounds(HealthOf(s.health, p))
    ensures HealthInBounds(HealthOf(Run(s, es).health, p))
  {
    if es != [] {
      RunKeepsHealthInBounds(s, es[..|es| - 1], p);
      var last := es[|es| - 1];
      if last.Picked? { PickFromPool(Run(s, es[..|es| - 1]), last.request, last.time); }
    }
  }

  // ----- rotation fairness

  /** The event draws from the rotation `key`, rather than from a lease or another rotation. */
  predicate Draws(s: PolicyState, e: Event, key: RotationKey) {
    && e.Picked? && RotatingKey(e.request) == key
    && var candidates := Selectable(s.health, e.request.pool, e.time);
       candidates != [] && !(e.request.sticky && LeaseUsable(s, e.request, candidates))
  }

  /** The proxies drawn from the rotation `key`, in order. */
  function Drawn(s: PolicyState, es: seq<Event>, key: RotationKey): seq<Url> {
    if es == [] then []
    else
      var before := Run(s, es[..|es| - 1]);
      var earlier := Drawn(s, es[..|es| - 1], key);
      var last := es[|es| - 1];
      if Draws(before, last, key) then
        earlier + [Pick(before, last.request, last.time).1.value]
      else earlier
  }

  /** Nothing is reported, and whoever uses the rotation `key` sees the same selectable proxies. */
  ghost predicate SteadyAt(s: PolicyState, e: Event, key: RotationKey, candidates: seq<Url>) {
    e.Picked? && (RotatingKey(e.request) == key ==> Selectable(s.health, e.request.pool, e.time) == candidates)
  }

  ghost predicate SteadyPool(s: PolicyState, es: seq<Event>, key: RotationKey, candidates: seq<Url>) {
    forall i :: 0 <= i < |es| ==> SteadyAt(s, es[i], key, candidates)
  }

  lemma DrawnSnoc(s: PolicyState, es: seq<Event>, key: RotationKey)
    requires es != []
    ensures var before, last := Run(s, es[..|es| - 1]), es[|es| - 1];
            Drawn(s, es, key) == if Draws(before, last, key)
                                 then Drawn(s, es[..|es| - 1], key) + [Pick(before, last.request, last.time).1.value]
                                 else Drawn(s, es[..|es| - 1], key)
  {
  }

  /** `n` consecutive places of the ranking from place `c` on, wrapping around. */
  function Places(h: map<Url, ProxyHealth>, candidates: seq<Url>, c: nat, n: nat): (r: seq<Url>)
    requires candidates != []
    ensures |r| == n
  {
    if n == 0 then [] else Places(h, candidates, c, n - 1) + [Place(h, candidates, c + n - 1)]
  }

  lemma PlacesSnoc(h: map<Url, ProxyHealth>, candidates: seq<Url>, c: nat, n: nat)
    requires candidates != []
    ensures Places(h, candidates, c, n + 1) == Places(h, candidates, c, n) + [Place(h, candidates, c + n)]
  {
  }

  lemma {:induction false} PlacesAt(h: map<Url, ProxyHealth>, candidates: seq<Url>, c: nat, n: nat, i: nat)
    requires candidates != [] && i < n
    ensures Places(h, candidates, c, n)[i] == Place(h, candidates, c + i)
  {
    if i < n - 1 { PlacesAt(h, candidates, c, n - 1, i); }
  }

  lemma SteadyPrefix(s: PolicyState, es: seq<Event>, key: RotationKey, candidates: seq<Url>)
    requires es != [] && SteadyPool(s, es, key, candidates)
    ensures SteadyPool(s, es[..|es| - 1], key, candidates) && SteadyAt(s, es[|es| - 1], key, candidates)
  {
  }

  lemma {:induction false} DrawsCount(s: PolicyState, es: seq<Event>, key: RotationKey, candidates: seq<Url>)
    requires candidates != [] && SteadyPool(s, es, key, candidates)
    ensures Run(s, es).health == s.health
    ensures CounterOf(Run(s, es), key) == CounterOf(s, key) + |Drawn(s, es, key)|
  {
    if es != [] {
      SteadyPrefix(s, es, key, candidates);
      DrawsCount(s, es[..|es| - 1], key, candidates);
      DrawnSnoc(s, es, key);
    }
  }

  /** Draws walk down the ranking, one place each, and wrap around. */
  lemma {:induction false} DrawsAdvance(s: PolicyState, es: seq<Event>, key: RotationKey, candidates: seq<Url>)
    requires candidates != [] && SteadyPool(s, es, key, candidates)
    ensures Drawn(s, es, key) == Places(s.health, candidates, CounterOf(s, key), |Drawn(s, es, key)|)
  {
    if es != [] {
      SteadyPrefix(s, es, key, candidates);
      DrawsAdvance(s, es[..|es| - 1], key, candidates);
      DrawsCount(s, es[..|es| - 1], key, candidates);
      DrawnSnoc(s, es, key);
      PlacesSnoc(s.health, candidates, CounterOf(s, key), |Drawn(s, es[..|es| - 1], key)|);
    }
  }

  lemma WrapAround(c: nat, i: nat, n: nat)
    requires i < n
    ensures (c + i) % n == if c % n + i < n then c % n + i else c % n + i - n
  {
    var q, r := c / n, c % n;
    if r + i < n {
      RemainderUnique(c + i, n, q, r + i);
    } else {
      assert (q + 1) * n == q * n + n;
      RemainderUnique(c + i, n, q + 1, r + i - n);
    }
  }

  lemma RemainderUnique(a: int, n: int, q: int, r: int)
    requires n > 0 && a == q * n + r && 0 <= r < n
    ensures a % n == r
  {
    var d := q - a / n;
    assert d * n == q * n - (a / n) * n;
    assert d * n == a % n - r;
    AtLeastOneMultiple(d, n);
    AtLeastOneMultiple(-d, n);
    assert (-d) * n == -(d * n);
  }

  lemma AtLeastOneMultiple(d: int, n: int)
    requires n > 0
    ensures d >= 1 ==> d * n >= n
  {
    if d >= 1 {
      assert d * n == (d - 1) * n + n;
      assert (d - 1) * n >= 0;
    }
  }

  /** As many places in a row as there are candidates go once through the ranking. */
  lemma TurnedRanking(h: map<Url, ProxyHealth>, candidates: seq<Url>, c: nat, window: seq<Url>)
    requires candidates != [] && |window| == |candidates|
    requires forall i :: 0 <= i < |window| ==> window[i] == Place(h, candidates, c + i)
    ensures multiset(window) == multiset(candidates)
  {
    var m, ranked := |candidates|, Ranked(h, candidates);
    SortContents(candidates, RankOrder(h));
    var r := c % m;
    forall i | 0 <= i < m ensures window[i] == (ranked[r..] + ranked[..r])[i] {
      WrapAround(c, i, m);
    }
    assert window == ranked[r..] + ranked[..r];
    TurnedContents(ranked, r);
  }

  lemma TurnedContents(ranked: seq<Url>, r: nat)
    requires r <= |ranked|
    ensures multiset(ranked[r..] + ranked[..r]) == multiset(ranked)
  {
    assert ranked == ranked[..r] + ranked[r..];
  }

  lemma PlacesWindow(h: map<Url, ProxyHealth>, candidates: seq<Url>, c: nat, n: nat, a: nat, window: seq<Url>)
    requires candidates != [] && a + |candidates| <= n && window == Places(h, candidates, c, n)[a..a + |candidates|]
    ensures forall i :: 0 <= i < |window| ==> window[i] == Place(h, candidates, c + a + i)
  {
    forall i | 0 <= i < |window| ensures window[i] == Place(h, candidates, c + a + i) {
      PlacesAt(h, candidates, c, n, a + i);
      assert c + (a + i) == c + a + i;
    }
  }

  /** With `n` proxies selectable, any `n` consecutive draws are a permutation of them. */
  lemma RotationIsFair(s: PolicyState, es: seq<Event>, key: RotationKey, candidates: seq<Url>, a: nat)
    requires candidates != [] && SteadyPool(s, es, key, candidates)
    requires a + |candidates| <= |Drawn(s, es, key)|
    ensures multiset(Drawn(s, es, key)[a..a + |candidates|]) == multiset(candidates)
  {
    DrawsAdvance(s, es, key, candidates);
    FairWindow(s.health, candidates, CounterOf(s, key), |Drawn(s, es, key)|, a);
  }

  lemma FairWindow(h: map<Url, ProxyHealth>, candidates: seq<Url>, c: nat, n: nat, a: nat)
    requires candidates != [] && a + |candidates| <= n
    ensures multiset(Places(h, candidates, c, n)[a..a + |candidates|]) == multiset(candidates)
  {
    var window := Places(h, candidates, c, n)[a..a + |candidates|];
    PlacesWindow(h, candidates, c, n, a, window);
    TurnedRanking(h, candidates, c + a, window);
  }

  // ----- sticky leases

  predicate UsesLease(e: Event, key: LeaseKey) {
    e.Picked? && e.request.sticky && (e.request.store, e.request.domain) == key
  }

  function LeaseUses(es: seq<Event>, key: LeaseKey): nat {
    if es == [] then 0
    else LeaseUses(es[..|es| - 1], key) + if UsesLease(es[|es| - 1], key) then 1 else 0
  }

  /** Whenever the lease is asked for, the leased proxy is in the pool and not cooling down. */
  ghost predicate StaysSelectable(s: PolicyState, es: seq<Event>, key: LeaseKey, p: Url) {
    forall i :: 0 <= i < |es| && UsesLease(es[i], key) ==>
      p in es[i].request.pool && !InCooldown(Run(s, es[..i]).health, p, es[i].time)
  }

  lemma {:induction false} LeaseCountsDown(s: PolicyState, es: seq<Event>, key: LeaseKey, p: Url)
    requires key in s.leases && s.leases[key].proxyUrl == p && StaysSelectable(s, es, key, p)
    requires LeaseUses(es, key) <= s.leases[key].usesLeft
    ensures key in Run(s, es).leases && Run(s, es).leases[key] == Lease(p, s.leases[key].usesLeft - LeaseUses(es, key))
  {
    if es != [] {
      var rest, last := es[..|es| - 1], es[|es| - 1];
      assert forall i :: 0 <= i < |rest| ==> rest[i] == es[i] && rest[..i] == es[..i];
      LeaseCountsDown(s, rest, key, p);
      if UsesLease(last, key) {
        SelectableMembers(Run(s, rest).health, last.request.pool, last.time);
      }
    }
  }

  /** A fresh lease of `n` requests: right after the draw, the next `n - 1` requests for the same
      store and domain get the same proxy without a draw, and the one after that draws again. */
  lemma LeaseServesExactly(s: PolicyState, first: Event, es: seq<Event>, key: LeaseKey, n: nat, p: Url, i: nat)
    requires UsesLease(first, key) && Draws(s, first, RotatingKey(first.request))
             && first.request.stickyRequests == n >= 1
    requires Pick(s, first.request, first.time).1 == Some(p)
    requires StaysSelectable(Step(s, first), es, key, p)
    requires i < |es| && UsesLease(es[i], key)
    ensures LeaseUses(es[..i], key) < n - 1 ==>
              Chosen(Step(s, first), es, i) == Some(p)
                && !Draws(Run(Step(s, first), es[..i]), es[i], RotatingKey(es[i].request))
    ensures LeaseUses(es[..i], key) == n - 1 ==> Draws(Run(Step(s, first), es[..i]), es[i], RotatingKey(es[i].request))
  {
    var begun := Step(s, first);
    assert begun.leases[key] == Lease(p, n - 1);
    if LeaseUses(es[..i], key) <= n - 1 {
      assert StaysSelectable(begun, es[..i], key, p) by {
        assert forall k :: 0 <= k < i ==> es[..i][k] == es[k] && es[..i][..k] == es[..k];
      }
      LeaseCountsDown(begun, es[..i], key, p);
      SelectableMembers(Run(begun, es[..i]).health, es[i].request.pool, es[i].time);
      assert p in Selectable(Run(begun, es[..i]).health, es[i].request.pool, es[i].time);
    }
  }
}
