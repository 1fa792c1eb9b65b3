/** A proxy's health record, read off the history of reports on it alone. */
module ProxyHealthRuns {
  import opened Counting
  import opened Wrappers
  import opened ProxyPolicy
  import opened ProxyPolicyRuns

  predicate Failed(e: Event, p: Url) {
    e.Reported? && NormalizeProxyUrl(e.url) == Some(p) && !e.outcome.success
  }

  predicate Succeeded(e: Event, p: Url) {
    e.Reported? && NormalizeProxyUrl(e.url) == Some(p) && e.outcome.success
  }

  predicate FailedHard(e: Event, p: Url) {
    Failed(e, p) && e.outcome.banLike
  }

  function Failures(es: seq<Event>, p: Url): nat {
    Count(es, (e: Event) => Failed(e, p))
  }

  function HardFailures(es: seq<Event>, p: Url): nat {
    Count(es, (e: Event) => FailedHard(e, p))
  }

  function Successes(es: seq<Event>, p: Url): nat {
    Count(es, (e: Event) => Succeeded(e, p))
  }

  /** An event that does not report on `p` leaves its record alone. */
  lemma OthersDoNotMatter(s: PolicyState, e: Event, p: Url)
    requires !Failed(e, p) && !Succeeded(e, p)
    ensures p in Step(s, e).health <==> p in s.health
    ensures HealthOf(Step(s, e).health, p) == HealthOf(s.health, p)
  {
    if e.Picked? { PickFromPool(s, e.request, e.time); }
  }

  // ----- failures in a row

  /** How many events come up to and including the last success of `p`. */
  function AfterSuccess(es: seq<Event>, p: Url): (k: nat)
    ensures k <= |es| && (k > 0 ==> Succeeded(es[k - 1], p))
    ensures forall i :: k <= i < |es| ==> !Succeeded(es[i], p)
  {
    if es == [] || Succeeded(es[|es| - 1], p) then |es| else AfterSuccess(es[..|es| - 1], p)
  }

  /** The failures of `p` since its last success. */
  function FailuresInARow(es: seq<Event>, p: Url): nat {
    Failures(es[AfterSuccess(es, p)..], p)
  }

  lemma RowSnoc(rest: seq<Event>, last: Event, p: Url)
    ensures FailuresInARow(rest + [last], p) ==
            if Succeeded(last, p) then 0 else FailuresInARow(rest, p) + if Failed(last, p) then 1 else 0
  {
    var es := rest + [last];
    assert es[..|rest|] == rest;
    if Succeeded(last, p) {
      assert es[|es|..] == [];
    } else {
      var k := AfterSuccess(rest, p);
      assert es[|es| - 1] == last && AfterSuccess(es, p) == k;
      assert es[k..] == rest[k..] + [last];
      FailuresSnoc(rest[k..], last, p);
    }
  }

  lemma FailuresSnoc(es: seq<Event>, e: Event, p: Url)
    ensures Failures(es + [e], p) == Failures(es, p) + if Failed(e, p) then 1 else 0
  {
    CountSnoc(es, e, (x: Event) => Failed(x, p));
  }

  lemma StepFailures(s: PolicyState, e: Event, p: Url)
    ensures HealthOf(Step(s, e).health, p).consecutiveFailures ==
            if Succeeded(e, p) then 0
            else HealthOf(s.health, p).consecutiveFailures + if Failed(e, p) then 1 else 0
  {
    if !Failed(e, p) && !Succeeded(e, p) { OthersDoNotMatter(s, e, p); }
  }

  /** The record of a proxy that started afresh counts its failures since its last success. */
  lemma {:induction false} FailuresCounted(s: PolicyState, es: seq<Event>, p: Url)
    requires HealthOf(s.health, p).consecutiveFailures == 0
    ensures HealthOf(Run(s, es).health, p).consecutiveFailures == FailuresInARow(es, p)
  {
    if es != [] {
      var rest, last := es[..|es| - 1], es[|es| - 1];
      FailuresCounted(s, rest, p);
      assert es == rest + [last];
      RowSnoc(rest, last, p);
      StepFailures(Run(s, rest), last, p);
    }
  }

  // ----- ban points

  /** What one event adds to the ban score: two for a ban-like failure, one for any other, less one for a success. */
  function Points(e: Event, p: Url): int {
    (if Failed(e, p) then 1 else 0) + (if FailedHard(e, p) then 1 else 0) - (if Succeeded(e, p) then 1 else 0)
  }

  function Net(es: seq<Event>, p: Url): int {
    Failures(es, p) + HardFailures(es, p) - Successes(es, p)
  }

  lemma NetSnoc(es: seq<Event>, e: Event, p: Url)
    ensures Net(es + [e], p) == Net(es, p) + Points(e, p)
  {
    CountSnoc(es, e, (x: Event) => Failed(x, p));
    CountSnoc(es, e, (x: Event) => FailedHard(x, p));
    CountSnoc(es, e, (x: Event) => Succeeded(x, p));
  }

  /** `b` is the largest net number of points over any tail of the history, the empty one included. */
  ghost predicate HighestTail(es: seq<Event>, p: Url, b: int) {
    && (forall k :: 0 <= k <= |es| ==> Net(es[k..], p) <= b)
    && (exists k :: 0 <= k <= |es| && Net(es[k..], p) == b)
  }

  lemma StepBan(s: PolicyState, e: Event, p: Url)
    requires HealthOf(s.health, p).banScore >= 0
    ensures var b := HealthOf(s.health, p).banScore + Points(e, p);
            HealthOf(Step(s, e).health, p).banScore == if b < 0 then 0 else b
  {
    if !Failed(e, p) && !Succeeded(e, p) { OthersDoNotMatter(s, e, p); }
  }

  lemma LongerTails(rest: seq<Event>, last: Event, p: Url, b: int)
    requires HighestTail(rest, p, b)
    ensures HighestTail(rest + [last], p, if b + Points(last, p) < 0 then 0 else b + Points(last, p))
  {
    var es := rest + [last];
    forall k | 0 <= k <= |rest| ensures Net(es[k..], p) == Net(rest[k..], p) + Points(last, p) {
      assert es[k..] == rest[k..] + [last];
      NetSnoc(rest[k..], last, p);
    }
    assert es[|es|..] == [] && Net(es[|es|..], p) == 0;
    var k :| 0 <= k <= |rest| && Net(rest[k..], p) == b;
    assert Net(es[k..], p) == b + Points(last, p);
  }

  /** The ban score of a proxy that started afresh is the largest net number of points over any tail of its history. */
  lemma {:induction false} BanScoreIsHighestTail(s: PolicyState, es: seq<Event>, p: Url)
    requires HealthOf(s.health, p).banScore == 0
    ensures HighestTail(es, p, HealthOf(Run(s, es).health, p).banScore)
  {
    if es == [] {
      assert Net(es[0..], p) == 0;
    } else {
      var rest, last := es[..|es| - 1], es[|es| - 1];
      BanScoreIsHighestTail(s, rest, p);
      assert es == rest + [last] && Net(rest[|rest|..], p) == 0;
      LongerTails(rest, last, p, HealthOf(Run(s, rest).health, p).banScore);
      StepBan(Run(s, rest), last, p);
    }
  }

  // ----- streaks

  ghost predicate NoSuccess(es: seq<Event>, p: Url) {
    forall i :: 0 <= i < |es| ==> !Succeeded(es[i], p)
  }

  ghost predicate NoFailure(es: seq<Event>, p: Url) {
    forall i :: 0 <= i < |es| ==> !Failed(es[i], p)
  }

  lemma FailsOnce(s: PolicyState, e: Event, p: Url)
    requires !Succeeded(e, p) && HealthInBounds(HealthOf(s.health, p))
    ensures var h, h' := HealthOf(s.health, p), HealthOf(Step(s, e).health, p);
            && h'.consecutiveFailures == h.consecutiveFailures + (if Failed(e, p) then 1 else 0)
            && h'.banScore == h.banScore + Points(e, p)
            && h'.healthScore == AtLeastZero(h.healthScore - 10.0 * Points(e, p) as real)
  {
    if !Failed(e, p) { OthersDoNotMatter(s, e, p); }
  }

  function AtLeastZero(x: real): real {
    if x < 0.0 then 0.0 else x
  }

  function AtMostHundred(x: real): real {
    if x > 100.0 then 100.0 else x
  }

  /** While nothing but failures is reported on `p`, each adds one failure in a row, one ban point and ten
      points off its health, and a ban-like one another ban point and another ten. */
  lemma {:induction false} FailingStreak(s: PolicyState, es: seq<Event>, p: Url)
    requires NoSuccess(es, p) && HealthInBounds(HealthOf(s.health, p))
    ensures var h, h' := HealthOf(s.health, p), HealthOf(Run(s, es).health, p);
            && h'.consecutiveFailures == h.consecutiveFailures + Failures(es, p)
            && h'.banScore == h.banScore + Failures(es, p) + HardFailures(es, p)
            && h'.healthScore == AtLeastZero(h.healthScore - 10.0 * (Failures(es, p) + HardFailures(es, p)) as real)
  {
    if es != [] {
      var rest, last := es[..|es| - 1], es[|es| - 1];
      FailingStreak(s, rest, p);
      RunKeepsHealthInBounds(s, rest, p);
      FailsOnce(Run(s, rest), last, p);
      TenEach((Failures(rest, p) + HardFailures(rest, p)) as int, Points(last, p), HealthOf(s.health, p).healthScore);
    }
  }

  lemma TenEach(n: int, d: int, h: real)
    requires d >= 0
    ensures AtLeastZero(AtLeastZero(h - 10.0 * n as real) - 10.0 * d as real) == AtLeastZero(h - 10.0 * (n + d) as real)
  {
    assert (n + d) as real == n as real + d as real;
    assert d as real >= 0.0;
  }

  lemma SucceedsOnce(s: PolicyState, e: Event, p: Url)
    requires !Failed(e, p) && HealthInBounds(HealthOf(s.health, p))
    ensures var h, h' := HealthOf(s.health, p), HealthOf(Step(s, e).health, p);
            && h'.consecutiveFailures == (if Succeeded(e, p) then 0 else h.consecutiveFailures)
            && h'.banScore == (if Succeeded(e, p) && h.banScore > 0 then h.banScore - 1 else h.banScore)
            && h'.healthScore == AtMostHundred(h.healthScore + if Succeeded(e, p) then 3.0 else 0.0)
  {
    if !Succeeded(e, p) { OthersDoNotMatter(s, e, p); }
  }

  /** While nothing but successes is reported on `p`, each takes a ban point off, down to none, and gives three
      points of health, up to a hundred; the first one ends the failures in a row. */
  lemma {:induction false} SucceedingStreak(s: PolicyState, es: seq<Event>, p: Url)
    requires NoFailure(es, p) && HealthInBounds(HealthOf(s.health, p))
    ensures var h, h', n := HealthOf(s.health, p), HealthOf(Run(s, es).health, p), Successes(es, p);
            && h'.consecutiveFailures == (if n > 0 then 0 else h.consecutiveFailures)
            && h'.banScore == (if n < h.banScore then h.banScore - n else 0)
            && h'.healthScore == AtMostHundred(h.healthScore + 3.0 * n as real)
  {
    if es != [] {
      var rest, last := es[..|es| - 1], es[|es| - 1];
      SucceedingStreak(s, rest, p);
      RunKeepsHealthInBounds(s, rest, p);
      SucceedsOnce(Run(s, rest), last, p);
    }
  }

  // ----- cooldowns

  /** Some tail of the history has at least `b` net points. */
  ghost predicate TailReaches(es: seq<Event>, p: Url, b: int) {
    exists k :: 0 <= k <= |es| && Net(es[k..], p) >= b
  }

  /** Event `i` is a failure of `p` that finds it at a limit: by failures since its last success, or by
      points over some tail of its history. */
  ghost predicate MeetsLimit(es: seq<Event>, p: Url, i: nat)
    requires i < |es|
  {
    && Failed(es[i], p)
    && (FailuresInARow(es[..i + 1], p) >= es[i].limits.maxFailures
        || TailReaches(es[..i + 1], p, es[i].limits.banThreshold))
  }

  ghost predicate CoolsPast(es: seq<Event>, p: Url, i: nat, now: real)
    requires i < |es|
  {
    MeetsLimit(es, p, i) && now < es[i].time + es[i].limits.cooldownSeconds as real
  }

  /** A success neither starts nor ends a cooldown; a failure starts one exactly when it meets a limit. */
  lemma StepCooldown(s: PolicyState, e: Event, p: Url, now: real)
    requires 0.0 <= e.time <= now
    ensures InCooldown(Step(s, e).health, p, now) <==>
              || InCooldown(s.health, p, now)
              || (Failed(e, p) && AtLimit(HealthOf(Step(s, e).health, p), e.limits)
                  && now < e.time + e.limits.cooldownSeconds as real)
  {
    if !Failed(e, p) && !Succeeded(e, p) { OthersDoNotMatter(s, e, p); }
  }

  /** The record of a proxy that started afresh is at its limits exactly when the history says so. */
  lemma LimitFromHistory(s: PolicyState, es: seq<Event>, p: Url)
    requires HealthOf(s.health, p) == NEW_PROXY && es != [] && Failed(es[|es| - 1], p)
    ensures AtLimit(HealthOf(Run(s, es).health, p), es[|es| - 1].limits) <==> MeetsLimit(es, p, |es| - 1)
  {
    FailuresCounted(s, es, p);
    BanScoreIsHighestTail(s, es, p);
    assert es[..|es|] == es;
  }

  ghost predicate CoolsAt(es: seq<Event>, p: Url, now: real) {
    exists i :: 0 <= i < |es| && CoolsPast(es, p, i, now)
  }

  lemma CoolsSnoc(rest: seq<Event>, last: Event, p: Url, now: real)
    ensures CoolsAt(rest + [last], p, now) <==> CoolsAt(rest, p, now) || CoolsPast(rest + [last], p, |rest|, now)
  {
    var es := rest + [last];
    forall i | 0 <= i < |rest| ensures CoolsPast(rest, p, i, now) <==> CoolsPast(es, p, i, now) {
      assert es[..i + 1] == rest[..i + 1];
    }
    if CoolsAt(rest, p, now) {
      var i :| 0 <= i < |rest| && CoolsPast(rest, p, i, now);
      assert CoolsPast(es, p, i, now);
    }
    if CoolsAt(es, p, now) {
      var i :| 0 <= i < |es| && CoolsPast(es, p, i, now);
      assert i < |rest| ==> CoolsPast(rest, p, i, now);
    }
  }

  lemma CoolsLast(s: PolicyState, es: seq<Event>, p: Url, now: real)
    requires HealthOf(s.health, p) == NEW_PROXY && es != []
    ensures CoolsPast(es, p, |es| - 1, now) <==>
              var e := es[|es| - 1];
              Failed(e, p) && AtLimit(HealthOf(Run(s, es).health, p), e.limits)
              && now < e.time + e.limits.cooldownSeconds as real
  {
    if Failed(es[|es| - 1], p) { LimitFromHistory(s, es, p); }
  }

  /** A proxy is cooling down exactly when some failure met a limit less than its cooldown ago. */
  lemma {:induction false} CoolingExactly(s: PolicyState, es: seq<Event>, p: Url, now: real)
    requires HealthOf(s.health, p) == NEW_PROXY && now >= 0.0
    requires forall i :: 0 <= i < |es| ==> 0.0 <= es[i].time <= now
    ensures InCooldown(Run(s, es).health, p, now) <==> CoolsAt(es, p, now)
  {
    if es != [] {
      var rest, last := es[..|es| - 1], es[|es| - 1];
      CoolingExactly(s, rest, p, now);
      StepCooldown(Run(s, rest), last, p, now);
      CoolsLast(s, es, p, now);
      assert es == rest + [last];
      CoolsSnoc(rest, last, p, now);
    }
  }

  /** So a selection passes over exactly the proxies with such a failure in their history. */
  lemma SelectableFromHistory(s: PolicyState, es: seq<Event>, pool: seq<Url>, p: Url, now: real)
    requires HealthOf(s.health, p) == NEW_PROXY && now >= 0.0
    requires forall i :: 0 <= i < |es| ==> 0.0 <= es[i].time <= now
    ensures p in Selectable(Run(s, es).health, pool, now) <==>
              p in pool && !CoolsAt(es, p, now)
  {
    CoolingExactly(s, es, p, now);
    SelectableMembers(Run(s, es).health, pool, now);
  }

  // ----- reasons

  /** The record tells the reason of the latest report, or its outcome where none was given. */
  lemma {:induction false} LatestReason(s: PolicyState, es: seq<Event>, p: Url, k: nat)
    requires k < |es| && (Failed(es[k], p) || Succeeded(es[k], p))
    requires forall i :: k < i < |es| ==> !Failed(es[i], p) && !Succeeded(es[i], p)
    ensures var given, told := es[k].outcome.reason, HealthOf(Run(s, es).health, p).lastReason;
            && (given != None && given != Some("") ==> told == given)
            && (given == None || given == Some("") ==>
                  told == Some(if es[k].outcome.success then "success" else "failure"))
  {
    if k < |es| - 1 {
      LatestReason(s, es[..|es| - 1], p, k);
      OthersDoNotMatter(Run(s, es[..|es| - 1]), es[|es| - 1], p);
    }
  }

  // ----- a fresh record

  /** A proxy on which nothing was reported is in full health, and no history ranks before it. */
  lemma UnknownIsBest(h: ProxyHealth)
    requires HealthInBounds(h)
    ensures HealthInBounds(NEW_PROXY) && NoWorse(NEW_PROXY, h)
  {
  }

  /** A success at or after the end of a cooldown clears it. */
  lemma ExpiredIsCleared(s: PolicyState, e: Event, p: Url)
    requires Succeeded(e, p)
    ensures HealthOf(Step(s, e).health, p).cooldownUntil ==
            if HealthOf(s.health, p).cooldownUntil > e.time then HealthOf(s.health, p).cooldownUntil else 0.0
  {
  }

  // ----- request meta

  /** With hardening, the meta names a usable proxy of the pool that the network policy accepts, and its mode. */
  lemma MetaIsUsable(s: PolicyState, lower: string -> string, r: Request, rejected: map<Url, string>, limits: Limits,
                     now: real, markNow: real)
    ensures var (s', meta) := MetaBuilt(s, lower, r, true, rejected, limits, now, markNow);
            && (meta.Some? ==>
                  && meta.value.proxy in r.pool && !InCooldown(s.health, meta.value.proxy, now)
                  && meta.value.proxy !in rejected && s'.health == s.health
                  && meta.value.mode == if r.sticky then "sticky" else "rotating")
            && ((forall u :: u in r.pool ==> InCooldown(s.health, u, now)) ==> meta == None && s' == s)
  {
    PickFromPool(s, r, now);
  }

  /** A rejection by the network policy counts as a failure of the picked proxy, a ban-like one where no reason
      is given, and the request goes without. */
  lemma RejectionIsFailure(s: PolicyState, lower: string -> string, r: Request, rejected: map<Url, string>,
                           limits: Limits, now: real, markNow: real, u: Url)
    requires Pick(s, r, now).1 == Some(u) && u in rejected && NormalizeProxyUrl(u) == Some(u)
    requires lower("proxy_rejected") == "proxy_rejected" && lower("") == ""
    ensures var (s', meta) := MetaBuilt(s, lower, r, true, rejected, limits, now, markNow);
            && meta == None && u in s'.health
            && s'.health[u].consecutiveFailures == HealthOf(s.health, u).consecutiveFailures + 1
            && s'.health[u].banScore > HealthOf(s.health, u).banScore
            && (rejected[u] == "" ==>
                  s'.health[u].banScore == HealthOf(s.health, u).banScore + 2
                    && s'.health[u].lastReason == Some("proxy_rejected"))
            && (rejected[u] != "" ==> s'.health[u].lastReason == Some(rejected[u]))
  {
    PickFromPool(s, r, now);
    BanLikeReasons(lower, "", "proxy_rejected", "");
    assert "" + "proxy_rejected" + "" == "proxy_rejected";
  }

  /** Without it, the first proxy of the pool is used if it is accepted, and nothing is recorded. */
  lemma LegacyMeta(s: PolicyState, lower: string -> string, r: Request, rejected: map<Url, string>, limits: Limits,
                   now: real, markNow: real)
    ensures var (s', meta) := MetaBuilt(s, lower, r, false, rejected, limits, now, markNow);
            && s' == s && (meta.Some? <==> r.pool != [] && r.pool[0] !in rejected)
            && (meta.Some? ==> meta.value.proxy == r.pool[0] && meta.value.mode == "legacy")
  {
  }
}
