/** Saturation only downgrades, and every run of admit, record and release steps keeps the counters exact. */
module AdmissionProtocol {
  import opened Text
  import opened Wrappers
  import opened ConcurrencyPolicy
  import opened Counting
  import opened ResourceGovernance

  // ----- saturation only downgrades

  /** A proxy request whose mode is not spelled exactly "proxy" cannot be downgraded. */
  predicate StuckOnProxy(cfg: Config, t: Tracker, g: Totals, st: Store, m: Meta) {
    ModeOf(m) == Proxy && m.accessMode != "proxy" && ProxySaturated(cfg, t, g, st)
  }

  lemma PlainIsHttp(m: Meta)
    requires m.accessMode == "plain"
    ensures ModeOf(m) == Http
  {
    assert Lower("plain") == "plain";
  }

  /** The mode a request ends up with. */
  function EffectiveMode(cfg: Config, t: Tracker, g: Totals, st: Store, m: Meta): Mode {
    if ModeOf(m) == Browser && BrowserSaturated(cfg, t, g, st) then Http
    else if ModeOf(m) == Proxy && ProxySaturated(cfg, t, g, st) && m.accessMode == "proxy" then Http
    else ModeOf(m)
  }

  lemma DowngradeMode(cfg: Config, t: Tracker, g: Totals, st: Store, m: Meta)
    ensures ModeOf(Downgrade(cfg, t, g, st, m, 3)) == EffectiveMode(cfg, t, g, st, m)
    ensures Downgrade(cfg, t, g, st, m, 3).bypass == m.bypass
  {
    DowngradedMeta(cfg, t, g, st, m);
    PlainIsHttp(m.(accessMode := "plain"));
    assert SelectedMode(m.(proxy := "")) == SelectedMode(m);
  }

  lemma BelowCap(x: nat, a: int, b: int)
    ensures x < Cap(a, b) <==> x < a && x < b
  {
  }

  /** Every counter the request will raise is strictly below its caps, and the retry queue is short. */
  predicate HasRoom(cfg: Config, t: Tracker, g: Totals, st: Store, purpose: Purpose) {
    var b := cfg.budgetOf(st);
    && At(t.retryQueue, st) < cfg.criticalRetryQueue && At(t.retryQueue, st) < cfg.globalRetryQueue
    && At(t.retryQueue, st) < b.maxRetryQueue
    && g.requests < cfg.globalRequests
    && At(t.total, st) < b.maxConcurrent && At(t.total, st) < cfg.globalRequests
    && (purpose == Listing ==>
          At(t.listing, st) < b.maxListing && At(t.listing, st) < Cap(b.maxConcurrent, cfg.globalRequests))
    && (purpose == Product ==>
          At(t.product, st) < b.maxProduct && At(t.product, st) < Cap(b.maxConcurrent, cfg.globalRequests))
  }

  lemma AllowedMeansRoom(cfg: Config, t: Tracker, g: Totals, st: Store, purpose: Purpose, mode: Mode)
    ensures DecideByCounters(cfg, t, g, st, purpose, mode).allowed <==> HasRoom(cfg, t, g, st, purpose)
  {
    var b := cfg.budgetOf(st);
    var capAll := Cap(b.maxConcurrent, cfg.globalRequests);
    BelowCap(At(t.total, st), b.maxConcurrent, cfg.globalRequests);
    BelowCap(At(t.listing, st), b.maxListing, capAll);
    BelowCap(At(t.product, st), b.maxProduct, capAll);
  }

  /** What a mode adds to the decision on a plain request. */
  lemma DecideByMode(cfg: Config, t: Tracker, g: Totals, st: Store, purpose: Purpose, mode: Mode)
    requires cfg.governance
    ensures DecideRequest(cfg, t, g, st, purpose, mode).allowed <==>
              && DecideRequest(cfg, t, g, st, purpose, Http).allowed
              && !(mode == Browser && BrowserSaturated(cfg, t, g, st))
              && !(mode == Proxy && ProxySaturated(cfg, t, g, st))
  {
    AllowedMeansRoom(cfg, t, g, st, purpose, mode);
    AllowedMeansRoom(cfg, t, g, st, purpose, Http);
  }

  /** Browser or proxy saturation alone never refuses a request: it is admitted exactly when a
      plain request would be, unless its proxy mode is spelled in a way the downgrade misses. */
  lemma SaturationOnlyDowngrades(cfg: Config, t: Tracker, g: Totals, storeName: string, purpose: string, m: Meta)
    requires cfg.governance && cfg.storeBudgets && Lower(StoreKey(storeName)) !in cfg.bypassStores
    ensures var st := StoreKey(storeName);
            Apply(cfg, t, g, storeName, purpose, m).1 <==>
              DecideRequest(cfg, t, g, st, PurposeOf(purpose), Http).allowed && !StuckOnProxy(cfg, t, g, st, m)
    ensures ModeOf(Apply(cfg, t, g, storeName, purpose, m).0) == EffectiveMode(cfg, t, g, StoreKey(storeName), m)
  {
    var st := StoreKey(storeName);
    DowngradeMode(cfg, t, g, st, m);
    DecideByMode(cfg, t, g, st, PurposeOf(purpose), EffectiveMode(cfg, t, g, st, m));
  }

  /** Such a spelling exists: a saturated proxy refuses "PROXY" although a plain request would pass. */
  lemma OddSpellingIsRefused(b: Budget)
    requires b.maxConcurrent > 0 && b.maxProduct > 0 && b.maxRetryQueue > 0
    ensures var cfg := Config(true, true, true, true, 1, 0, 0, 1, 1, st => b, {});
            var m := Meta("PROXY", false, "http://p", false, None);
            && !Apply(cfg, EMPTY_TRACKER, Totals(0, 0, 0), "s", "product", m).1
            && DecideRequest(cfg, EMPTY_TRACKER, Totals(0, 0, 0), "s", Product, Http).allowed
            && Apply(cfg, EMPTY_TRACKER, Totals(0, 0, 0), "s", "product", m.(accessMode := "proxy")).1
  {
    var cfg := Config(true, true, true, true, 1, 0, 0, 1, 1, st => b, {});
    var m := Meta("PROXY", false, "http://p", false, None);
    SpellingFacts();
    SaturationOnlyDowngrades(cfg, EMPTY_TRACKER, Totals(0, 0, 0), "s", "product", m);
    SaturationOnlyDowngrades(cfg, EMPTY_TRACKER, Totals(0, 0, 0), "s", "product", m.(accessMode := "proxy"));
  }

  lemma SpellingFacts()
    ensures Lower("PROXY") == "proxy" && Lower("proxy") == "proxy" && Lower("product") == "product"
    ensures StoreKey("s") == "s" && Lower("s") == "s"
  {
  }

  // ----- what a decision says

  /** `limit` is the least of the caps given. */
  predicate LeastOf(limit: int, caps: set<int>) {
    limit in caps && forall c :: c in caps ==> limit <= c
  }

  /** Each reason for a refusal names a full counter, with the cap it reached as the limit. */
  predicate RefusalHolds(cfg: Config, t: Tracker, g: Totals, st: Store, d: Decision) {
    var b := cfg.budgetOf(st);
    match d.reason
    case RetryQueuePressure => d.selectedLimit == 0
      && !(At(t.retryQueue, st) < cfg.criticalRetryQueue && At(t.retryQueue, st) < cfg.globalRetryQueue
           && At(t.retryQueue, st) < b.maxRetryQueue)
    case GlobalRequestCap => g.requests >= d.selectedLimit == cfg.globalRequests
    case StoreRequestCap =>
      At(t.total, st) >= d.selectedLimit && LeastOf(d.selectedLimit, {b.maxConcurrent, cfg.globalRequests})
    case StoreListingCap => At(t.listing, st) >= d.selectedLimit
      && LeastOf(d.selectedLimit, {b.maxListing, b.maxConcurrent, cfg.globalRequests})
    case StoreProductCap => At(t.product, st) >= d.selectedLimit
      && LeastOf(d.selectedLimit, {b.maxProduct, b.maxConcurrent, cfg.globalRequests})
    case GlobalBrowserPagesCap => d.mode == Browser && g.browser >= d.selectedLimit == cfg.globalBrowser
    case StoreBrowserPagesCap => d.mode == Browser && At(t.browser, st) >= d.selectedLimit
      && LeastOf(d.selectedLimit, {b.maxBrowser, cfg.globalBrowser})
    case GlobalProxyCap => d.mode == Proxy && g.proxy >= d.selectedLimit == cfg.globalProxy
    case StoreProxyCap => d.mode == Proxy && At(t.proxy, st) >= d.selectedLimit
      && LeastOf(d.selectedLimit, {b.maxProxy, cfg.globalProxy})
    case _ => false
  }

  lemma CountersTell(cfg: Config, t: Tracker, g: Totals, st: Store, purpose: Purpose, mode: Mode)
    ensures var d := DecideByCounters(cfg, t, g, st, purpose, mode);
            && d.mode == mode && (!d.allowed ==> RefusalHolds(cfg, t, g, st, d))
            && (d.allowed ==>
                  d.reason == RequestAdmitted
                    && LeastOf(d.selectedLimit, {cfg.budgetOf(st).maxConcurrent, cfg.globalRequests}))
  {
  }

  /** A decision keeps the request's mode. A refusal names a counter that is full; an admission gives the
      store's own cap on requests, the lesser of its budget and the global one when governed. */
  lemma DecisionTells(cfg: Config, t: Tracker, g: Totals, st: Store, purpose: Purpose, mode: Mode)
    ensures var d := DecideRequest(cfg, t, g, st, purpose, mode);
            && d.mode == mode
            && (!d.allowed ==> cfg.governance && RefusalHolds(cfg, t, g, st, d))
            && (d.allowed && !cfg.governance ==>
                  d.reason == GovernanceDisabled && d.selectedLimit == cfg.budgetOf(st).maxConcurrent)
            && (d.allowed && cfg.governance ==>
                  d.reason == RequestAdmitted
                    && LeastOf(d.selectedLimit, {cfg.budgetOf(st).maxConcurrent, cfg.globalRequests}))
            && (!cfg.governance ==> d.allowed)
  {
    CountersTell(cfg, t, g, st, purpose, mode);
    ModeDecisionsTell(cfg, t, g, st);
  }

  /** So do the decisions on browser pages and proxies alone, which admit where budgets are off. */
  lemma ModeDecisionsTell(cfg: Config, t: Tracker, g: Totals, st: Store)
    ensures var d, b := DecideBrowser(cfg, t, g, st), cfg.budgetOf(st);
            && d.mode == Browser && (!d.allowed ==> RefusalHolds(cfg, t, g, st, d))
            && (!cfg.governance || !cfg.browserBudgets ==>
                  d.reason == BrowserBudgetsDisabled && d.allowed && d.selectedLimit == b.maxBrowser)
            && (d.allowed && cfg.governance && cfg.browserBudgets ==>
                  d.reason == BrowserAdmitted && LeastOf(d.selectedLimit, {b.maxBrowser, cfg.globalBrowser}))
    ensures var d, b := DecideProxy(cfg, t, g, st), cfg.budgetOf(st);
            && d.mode == Proxy && (!d.allowed ==> RefusalHolds(cfg, t, g, st, d))
            && (!cfg.governance || !cfg.proxyBudgets ==>
                  d.reason == ProxyBudgetsDisabled && d.allowed && d.selectedLimit == b.maxProxy)
            && (d.allowed && cfg.governance && cfg.proxyBudgets ==>
                  d.reason == ProxyAdmitted && LeastOf(d.selectedLimit, {b.maxProxy, cfg.globalProxy}))
  {
  }

  /** The retry queue of a store is what was last reported of it, never below zero, and of that store alone. */
  lemma RetryQueueTold(cfg: Config, t: Tracker, storeName: string, size: int, st: Store)
    ensures var t' := RetryQueued(cfg, t, storeName, size);
            && t' == t.(retryQueue := t'.retryQueue)
            && (!cfg.governance || st != StoreKey(storeName) ==> At(t'.retryQueue, st) == At(t.retryQueue, st))
            && (cfg.governance && size >= 0 ==> At(t'.retryQueue, StoreKey(storeName)) == size)
            && (cfg.governance && size < 0 ==> At(t'.retryQueue, StoreKey(storeName)) == 0)
  {
  }

  // ----- what happens to the request's meta

  /** Every browser page the store or everyone may open is open. */
  predicate BrowserFull(cfg: Config, t: Tracker, g: Totals, st: Store) {
    || g.browser >= cfg.globalBrowser
    || At(t.browser, st) >= cfg.globalBrowser || At(t.browser, st) >= cfg.budgetOf(st).maxBrowser
  }

  predicate ProxyFull(cfg: Config, t: Tracker, g: Totals, st: Store) {
    || g.proxy >= cfg.globalProxy
    || At(t.proxy, st) >= cfg.globalProxy || At(t.proxy, st) >= cfg.budgetOf(st).maxProxy
  }

  lemma SaturatedMeansFull(cfg: Config, t: Tracker, g: Totals, st: Store)
    ensures BrowserSaturated(cfg, t, g, st) <==> cfg.governance && cfg.browserBudgets && BrowserFull(cfg, t, g, st)
    ensures ProxySaturated(cfg, t, g, st) <==> cfg.governance && cfg.proxyBudgets && ProxyFull(cfg, t, g, st)
  {
  }

  /** A mode is read in any letter case, and anything else counts as plain HTTP. */
  lemma ModeIsRead(m: Meta)
    ensures ModeOf(m) == Browser <==> Lower(m.accessMode) == "browser"
    ensures ModeOf(m) == Proxy <==> Lower(m.accessMode) == "proxy"
  {
    assert Lower("plain") == "plain";
    assert |Lower(m.accessMode)| == |m.accessMode|;
  }

  /** Neither governed nor budgeted, or bypassed: admitted, and at most marked as bypassed. */
  lemma UngovernedIsAdmitted(cfg: Config, t: Tracker, g: Totals, storeName: string, purpose: string, m: Meta)
    ensures !cfg.governance || !cfg.storeBudgets ==> Apply(cfg, t, g, storeName, purpose, m) == (m, true)
    ensures cfg.governance && cfg.storeBudgets && Lower(StoreKey(storeName)) in cfg.bypassStores ==>
              Apply(cfg, t, g, storeName, purpose, m) ==
              (Meta(m.accessMode, m.playwright, m.proxy, true, m.tag), true)
  {
  }

  /** The whole meta of a governed request: a browser request that finds the pages full loses its browser
      and becomes plain; a proxy request that finds the proxies full loses its proxy, and becomes plain if its
      mode is spelled "proxy"; nothing else of any request changes. */
  lemma MetaAfterApply(cfg: Config, t: Tracker, g: Totals, storeName: string, purpose: string, m: Meta)
    requires cfg.governance && cfg.storeBudgets && Lower(StoreKey(storeName)) !in cfg.bypassStores
    ensures var st := StoreKey(storeName);
            Apply(cfg, t, g, storeName, purpose, m).0 ==
            if Lower(m.accessMode) == "browser" && cfg.browserBudgets && BrowserFull(cfg, t, g, st)
            then Meta("plain", false, m.proxy, m.bypass, m.tag)
            else if Lower(m.accessMode) == "proxy" && cfg.proxyBudgets && ProxyFull(cfg, t, g, st)
            then Meta(if m.accessMode == "proxy" then "plain" else m.accessMode, m.playwright, "", m.bypass, m.tag)
            else m
  {
    var st := StoreKey(storeName);
    SaturatedMeansFull(cfg, t, g, st);
    ModeIsRead(m);
    DowngradedMeta(cfg, t, g, st, m);
  }

  lemma DowngradedMeta(cfg: Config, t: Tracker, g: Totals, st: Store, m: Meta)
    ensures Downgrade(cfg, t, g, st, m, 3) ==
            if ModeOf(m) == Browser && BrowserSaturated(cfg, t, g, st)
            then Meta("plain", false, m.proxy, m.bypass, m.tag)
            else if ModeOf(m) == Proxy && ProxySaturated(cfg, t, g, st)
            then Meta(if m.accessMode == "proxy" then "plain" else m.accessMode, m.playwright, "", m.bypass, m.tag)
            else m
  {
    if ModeOf(m) == Browser && BrowserSaturated(cfg, t, g, st) {
      PlainIsHttp(StripBrowser(m));
    } else if ModeOf(m) == Proxy && ProxySaturated(cfg, t, g, st) {
      if m.accessMode == "proxy" {
        PlainIsHttp(StripProxy(m));
      } else {
        assert ModeOf(StripProxy(m)) == Proxy && StripProxy(StripProxy(m)) == StripProxy(m);
      }
    }
  }

  /** Counters are kept under the store's trimmed name; all blank names share one. */
  lemma StoresByTrimmedName(left: string, name: string, right: string)
    requires Blank(left) && Blank(right) && Trimmed(name)
    ensures StoreKey(left + name + right) == if name == "" then "unknown" else name
  {
    StripExactly(left, name, right);
  }

  /** What recording a request counts it as, read off the request itself. */
  predicate CountsAs(purpose: string, m: Meta, col: Column) {
    match col
    case TotalColumn => true
    case ListingColumn => Lower(purpose) != "product"
    case ProductColumn => Lower(purpose) == "product"
    case BrowserColumn => Lower(m.accessMode) == "browser"
    case ProxyColumn => Lower(m.accessMode) == "proxy"
  }

  /** A recorded request is counted in exactly the columns its purpose and mode name, unless bypassed; no other
      part of its meta changes. */
  lemma RecordedCounts(cfg: Config, t: Tracker, storeName: string, purpose: string, m: Meta, col: Column)
    requires cfg.governance
    ensures var m' := Record(cfg, t, storeName, purpose, m).1;
            && m'.tag.Some? && m' == Meta(m.accessMode, m.playwright, m.proxy, m.bypass, m'.tag)
            && m'.tag.value.mode == (if m.accessMode == "" then "plain" else Lower(m.accessMode))
            && (Counts(cfg, Ticket(storeName, m'), col) <==> !m.bypass && CountsAs(purpose, m, col))
  {
    ModeIsRead(m);
    assert Lower("plain") == "plain";
  }

  // ----- runs

  /** A request that was admitted and is not recorded yet. */
  datatype Admitted = Admitted(storeName: string, purpose: string, meta: Meta)

  /** A request that was recorded and not yet released. */
  datatype Ticket = Ticket(storeName: string, meta: Meta)

  datatype State = State(tracker: Tracker, waiting: seq<Admitted>, outstanding: seq<Ticket>)

  datatype Step =
    | Admit(storeName: string, purpose: string, meta: Meta)
    | Recorded(index: nat)
    | Finish(index: nat)
    | SetRetryQueue(storeName: string, size: int)

  ghost function Next(cfg: Config, s: State, step: Step): State {
    match step
    case Admit(storeName, purpose, meta) =>
      var (m, admitted) := Apply(cfg, s.tracker, TotalsOf(s.tracker), storeName, purpose, meta);
      if admitted then s.(waiting := s.waiting + [Admitted(storeName, purpose, m)]) else s
    case Recorded(i) =>
      if i >= |s.waiting| then s
      else
        var w := s.waiting[i];
        var (t, m) := Record(cfg, s.tracker, w.storeName, w.purpose, w.meta);
        State(t, Without(s.waiting, i), s.outstanding + [Ticket(w.storeName, m)])
    case Finish(i) =>
      if i >= |s.outstanding| then s
      else
        var k := s.outstanding[i];
        s.(tracker := Release(cfg, s.tracker, k.storeName, k.meta), outstanding := Without(s.outstanding, i))
    case SetRetryQueue(storeName, size) => s.(tracker := RetryQueued(cfg, s.tracker, storeName, size))
  }

  ghost function Run(cfg: Config, steps: seq<Step>): State {
    if steps == [] then State(EMPTY_TRACKER, [], [])
    else Next(cfg, Run(cfg, steps[..|steps| - 1]), steps[|steps| - 1])
  }

  // ----- what a ticket counts for

  datatype Column = TotalColumn | ListingColumn | ProductColumn | BrowserColumn | ProxyColumn

  function TableOf(t: Tracker, col: Column): Table {
    match col
    case TotalColumn => t.total
    case ListingColumn => t.listing
    case ProductColumn => t.product
    case BrowserColumn => t.browser
    case ProxyColumn => t.proxy
  }

  predicate TagCounts(tag: GovTag, col: Column) {
    match col
    case TotalColumn => true
    case ListingColumn => tag.purpose == Listing
    case ProductColumn => tag.purpose == Product
    case BrowserColumn => tag.mode == "browser"
    case ProxyColumn => tag.mode == "proxy"
  }

  /** Whether a ticket is counted in a column: bypassed and untagged requests never are. */
  predicate Counts(cfg: Config, k: Ticket, col: Column) {
    cfg.governance && k.meta.tag.Some? && !k.meta.tag.value.bypass && TagCounts(k.meta.tag.value, col)
  }

  function Outstanding(cfg: Config, ks: seq<Ticket>, col: Column, st: Store): nat {
    Count(ks, (k: Ticket) => Counts(cfg, k, col) && StoreKey(k.storeName) == st)
  }

  lemma OutstandingSnoc(cfg: Config, ks: seq<Ticket>, k: Ticket, col: Column, st: Store)
    ensures Outstanding(cfg, ks + [k], col, st) ==
            Outstanding(cfg, ks, col, st) + if Counts(cfg, k, col) && StoreKey(k.storeName) == st then 1 else 0
  {
    CountSnoc(ks, k, (k: Ticket) => Counts(cfg, k, col) && StoreKey(k.storeName) == st);
  }

  lemma OutstandingWithout(cfg: Config, ks: seq<Ticket>, i: nat, col: Column, st: Store)
    requires i < |ks|
    ensures Outstanding(cfg, ks, col, st) == Outstanding(cfg, Without(ks, i), col, st)
            + if Counts(cfg, ks[i], col) && StoreKey(ks[i].storeName) == st then 1 else 0
  {
    CountWithout(ks, i, (k: Ticket) => Counts(cfg, k, col) && StoreKey(k.storeName) == st);
  }

  /** Every counter equals the number of outstanding requests it stands for. */
  ghost predicate Exact(cfg: Config, s: State) {
    forall col, st :: At(TableOf(s.tracker, col), st) == Outstanding(cfg, s.outstanding, col, st)
  }

  lemma CountedColumn(t: Tracker, st: Store, tag: GovTag, col: Column)
    ensures TableOf(Counted(t, st, tag), col) == if TagCounts(tag, col) then Up(TableOf(t, col), st)
            else TableOf(t, col)
    ensures TableOf(Released(t, st, tag), col) == if TagCounts(tag, col) then Down(TableOf(t, col), st)
            else TableOf(t, col)
  {
  }

  lemma RecordKeepsExact(cfg: Config, s: State, i: nat)
    requires Exact(cfg, s)
    ensures Exact(cfg, Next(cfg, s, Recorded(i)))
  {
    var s' := Next(cfg, s, Recorded(i));
    if i < |s.waiting| {
      var w := s.waiting[i];
      forall col, st ensures At(TableOf(s'.tracker, col), st) == Outstanding(cfg, s'.outstanding, col, st) {
        OutstandingSnoc(cfg, s.outstanding, s'.outstanding[|s.outstanding|], col, st);
        assert At(TableOf(s.tracker, col), st) == Outstanding(cfg, s.outstanding, col, st);
        CountedColumn(s.tracker, StoreKey(w.storeName), TagOf(w.purpose, w.meta), col);
      }
    }
  }

  lemma FinishKeepsExact(cfg: Config, s: State, i: nat)
    requires Exact(cfg, s)
    ensures Exact(cfg, Next(cfg, s, Finish(i)))
  {
    var s' := Next(cfg, s, Finish(i));
    if i < |s.outstanding| {
      var k := s.outstanding[i];
      forall col, st ensures At(TableOf(s'.tracker, col), st) == Outstanding(cfg, s'.outstanding, col, st) {
        OutstandingWithout(cfg, s.outstanding, i, col, st);
        OutstandingWithout(cfg, s.outstanding, i, col, StoreKey(k.storeName));
        assert At(TableOf(s.tracker, col), st) == Outstanding(cfg, s.outstanding, col, st);
        assert At(TableOf(s.tracker, col), StoreKey(k.storeName)) ==
          Outstanding(cfg, s.outstanding, col, StoreKey(k.storeName));
        if k.meta.tag.Some? { CountedColumn(s.tracker, StoreKey(k.storeName), k.meta.tag.value, col); }
      }
    }
  }

  /** In every reachable state, however steps interleave, each counter is the number of recorded and
      unreleased requests with its tag. */
  lemma {:induction false} EveryRunIsExact(cfg: Config, steps: seq<Step>)
    ensures Exact(cfg, Run(cfg, steps))
  {
    if steps != [] {
      var s, step := Run(cfg, steps[..|steps| - 1]), steps[|steps| - 1];
      EveryRunIsExact(cfg, steps[..|steps| - 1]);
      match step
      case Admit(storeName, purpose, meta) => SameCountersStayExact(cfg, s, Next(cfg, s, step));
      case Recorded(i) => RecordKeepsExact(cfg, s, i);
      case Finish(i) => FinishKeepsExact(cfg, s, i);
      case SetRetryQueue(storeName, size) => SameCountersStayExact(cfg, s, Next(cfg, s, step));
    }
  }

  lemma SameCountersStayExact(cfg: Config, s: State, s': State)
    requires Exact(cfg, s) && s'.outstanding == s.outstanding
    requires forall col :: TableOf(s'.tracker, col) == TableOf(s.tracker, col)
    ensures Exact(cfg, s')
  {
  }
}
