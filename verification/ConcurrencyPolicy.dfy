/** Per-store counters and the admission decisions that read them. */
module ConcurrencyPolicy {
  import opened Ordering

  type Store = string
  type Table = map<Store, nat>

  /** The counters of infrastructure/performance/resource_tracker.py that admission reads. */
  datatype Tracker = Tracker(total: Table, listing: Table, product: Table, browser: Table, proxy: Table,
                             retryQueue: Table)

  const EMPTY_TRACKER := Tracker(map[], map[], map[], map[], map[], map[])

  datatype Budget = Budget(
    maxConcurrent: nat, maxListing: nat, maxProduct: nat, maxRetryQueue: nat, maxBrowser: nat, maxProxy: nat)

  /** Settings and budgets in force; `bypassStores` are stripped, lower-cased names. */
  datatype Config = Config(
    governance: bool, storeBudgets: bool, browserBudgets: bool, proxyBudgets: bool,
    globalRequests: nat, globalBrowser: nat, globalProxy: nat, globalRetryQueue: nat, criticalRetryQueue: nat,
    budgetOf: Store -> Budget, bypassStores: set<string>)

  datatype Mode = Http | Proxy | Browser
  datatype Purpose = Listing | Product

  /** The reason texts of the source, as constructors. */
  datatype Reason =
    | GovernanceDisabled | RetryQueuePressure | GlobalRequestCap | StoreRequestCap
    | StoreListingCap | StoreProductCap | RequestAdmitted
    | BrowserBudgetsDisabled | GlobalBrowserPagesCap | StoreBrowserPagesCap | BrowserAdmitted
    | ProxyBudgetsDisabled | GlobalProxyCap | StoreProxyCap | ProxyAdmitted

  datatype Decision = Decision(allowed: bool, reason: Reason, selectedLimit: int, mode: Mode)

  /** The lookup of a `defaultdict(int)`. */
  function At(m: Table, st: Store): nat {
    if st in m then m[st] else 0
  }

  // ----- global totals

  /** `sum(values)`. */
  ghost function Sum(m: Table): nat {
    if m == map[] then 0
    else
      var k :| k in m;
      m[k] + Sum(m - {k})
  }

  lemma {:induction false} SumSplit(m: Table, k: Store)
    requires k in m
    ensures Sum(m) == m[k] + Sum(m - {k})
    decreases |m|
  {
    assert m != map[];
    var j :| j in m && Sum(m) == m[j] + Sum(m - {j});
    if j != k {
      SumSplit(m - {j}, k);
      SumSplit(m - {k}, j);
      assert m - {j} - {k} == m - {k} - {j};
    }
  }

  lemma SumUpdate(m: Table, k: Store, v: nat)
    ensures Sum(m[k := v]) == Sum(m) - At(m, k) + v
  {
    SumSplit(m[k := v], k);
    if k in m {
      SumSplit(m, k);
      assert m[k := v] - {k} == m - {k};
    } else {
      assert m[k := v] - {k} == m;
    }
  }

  /** The entries of `m` under the keys of `order`. */
  ghost function Restricted(m: Table, order: seq<Store>): Table {
    map k | k in order && k in m :: m[k]
  }

  lemma SumOneMore(m: Table, order: seq<Store>, k: Store)
    requires k in m && k !in order
    ensures Sum(Restricted(m, order + [k])) == Sum(Restricted(m, order)) + m[k]
  {
    SumSplit(Restricted(m, order + [k]), k);
    assert Restricted(m, order + [k]) - {k} == Restricted(m, order);
  }

  method GlobalTotal(m: Table) returns (n: nat)
    ensures n == Sum(m)
  {
    n := 0;
    var order := Enumerate(m.Keys);
    assert Restricted(m, order[..0]) == map[];
    for i := 0 to |order|
      invariant n == Sum(Restricted(m, order[..i]))
    {
      assert order[i] in order && order[i] !in order[..i];
      SumOneMore(m, order[..i], order[i]);
      assert order[..i + 1] == order[..i] + [order[i]];
      n := n + m[order[i]];
    }
    assert order[..|order|] == order;
    assert Restricted(m, order) == m;
  }

  datatype Totals = Totals(requests: nat, browser: nat, proxy: nat)

  ghost function TotalsOf(t: Tracker): Totals {
    Totals(Sum(t.total), Sum(t.browser), Sum(t.proxy))
  }

  // ----- decisions

  function Cap(a: int, b: int): int {
    var low := if a < b then a else b;
    if low < 0 then 0 else low
  }

  function Min3(a: int, b: int, c: int): int {
    var m := if a < b then a else b;
    if m < c then m else c
  }

  function DecideBrowser(cfg: Config, t: Tracker, g: Totals, st: Store): Decision {
    var b := cfg.budgetOf(st);
    var cap := Cap(b.maxBrowser, cfg.globalBrowser);
    if !cfg.governance || !cfg.browserBudgets then Decision(true, BrowserBudgetsDisabled, b.maxBrowser, Browser)
    else if g.browser >= cfg.globalBrowser then Decision(false, GlobalBrowserPagesCap, cfg.globalBrowser, Browser)
    else if At(t.browser, st) >= cap then Decision(false, StoreBrowserPagesCap, cap, Browser)
    else Decision(true, BrowserAdmitted, cap, Browser)
  }

  function DecideProxy(cfg: Config, t: Tracker, g: Totals, st: Store): Decision {
    var b := cfg.budgetOf(st);
    var cap := Cap(b.maxProxy, cfg.globalProxy);
    if !cfg.governance || !cfg.proxyBudgets then Decision(true, ProxyBudgetsDisabled, b.maxProxy, Proxy)
    else if g.proxy >= cfg.globalProxy then Decision(false, GlobalProxyCap, cfg.globalProxy, Proxy)
    else if At(t.proxy, st) >= cap then Decision(false, StoreProxyCap, cap, Proxy)
    else Decision(true, ProxyAdmitted, cap, Proxy)
  }

  /** The part of the decision that does not depend on the mode. */
  function DecideByCounters(cfg: Config, t: Tracker, g: Totals, st: Store, purpose: Purpose, mode: Mode): Decision {
    var b := cfg.budgetOf(st);
    var capAll := Cap(b.maxConcurrent, cfg.globalRequests);
    var listingCap, productCap := Cap(b.maxListing, capAll), Cap(b.maxProduct, capAll);
    if At(t.retryQueue, st) >= Min3(cfg.criticalRetryQueue, cfg.globalRetryQueue, b.maxRetryQueue) then
      Decision(false, RetryQueuePressure, 0, mode)
    else if g.requests >= cfg.globalRequests then Decision(false, GlobalRequestCap, cfg.globalRequests, mode)
    else if At(t.total, st) >= capAll then Decision(false, StoreRequestCap, capAll, mode)
    else if purpose == Listing && At(t.listing, st) >= listingCap then
      Decision(false, StoreListingCap, listingCap, mode)
    else if purpose == Product && At(t.product, st) >= productCap then
      Decision(false, StoreProductCap, productCap, mode)
    else Decision(true, RequestAdmitted, capAll, mode)
  }

  function DecideRequest(cfg: Config, t: Tracker, g: Totals, st: Store, purpose: Purpose, mode: Mode): Decision {
    if !cfg.governance then Decision(true, GovernanceDisabled, cfg.budgetOf(st).maxConcurrent, mode)
    else if !DecideByCounters(cfg, t, g, st, purpose, mode).allowed then DecideByCounters(cfg, t, g, st, purpose, mode)
    else if mode == Browser && !DecideBrowser(cfg, t, g, st).allowed then DecideBrowser(cfg, t, g, st)
    else if mode == Proxy && !DecideProxy(cfg, t, g, st).allowed then DecideProxy(cfg, t, g, st)
    else DecideByCounters(cfg, t, g, st, purpose, mode)
  }
}
