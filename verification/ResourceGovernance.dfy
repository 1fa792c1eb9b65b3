/** `resource_governance.py`: downgrade, admit, record and release requests against the counters. */
module ResourceGovernance {
  import opened Text
  import opened Wrappers
  import opened ConcurrencyPolicy

  /** What `record` leaves in the request for `release` to read. */
  datatype GovTag = GovTag(purpose: Purpose, mode: string, bypass: bool)

  /** The governed part of a request's `meta` dict; an absent text key is `""`. */
  datatype Meta = Meta(accessMode: string, playwright: bool, proxy: string, bypass: bool, tag: Option<GovTag>)

  function StoreKey(storeName: string): Store {
    if Strip(storeName) == "" then "unknown" else Strip(storeName)
  }

  function PurposeOf(purpose: string): Purpose {
    if Lower(purpose) == "product" then Product else Listing
  }

  /** `str(meta.get("access_mode_selected") or "plain").lower()`. */
  function SelectedMode(m: Meta): string {
    Lower(if m.accessMode == "" then "plain" else m.accessMode)
  }

  function ModeOf(m: Meta): Mode {
    if SelectedMode(m) == "browser" then Browser else if SelectedMode(m) == "proxy" then Proxy else Http
  }

  function StripBrowser(m: Meta): Meta {
    m.(playwright := false, accessMode := "plain")
  }

  /** The mode is only reset when it is spelled exactly "proxy". */
  function StripProxy(m: Meta): Meta {
    m.(proxy := "", accessMode := if m.accessMode == "proxy" then "plain" else m.accessMode)
  }

  predicate BrowserSaturated(cfg: Config, t: Tracker, g: Totals, st: Store) {
    cfg.browserBudgets && !DecideBrowser(cfg, t, g, st).allowed
  }

  predicate ProxySaturated(cfg: Config, t: Tracker, g: Totals, st: Store) {
    cfg.proxyBudgets && !DecideProxy(cfg, t, g, st).allowed
  }

  /** At most `n` turns of the downgrade loop. */
  function Downgrade(cfg: Config, t: Tracker, g: Totals, st: Store, m: Meta, n: nat): Meta
    decreases n
  {
    if n == 0 then m
    else if ModeOf(m) == Browser && BrowserSaturated(cfg, t, g, st) then
      Downgrade(cfg, t, g, st, StripBrowser(m), n - 1)
    else if ModeOf(m) == Proxy && ProxySaturated(cfg, t, g, st) then Downgrade(cfg, t, g, st, StripProxy(m), n - 1)
    else m
  }

  /** The request's meta after `apply`, and whether it is admitted. */
  function Apply(cfg: Config, t: Tracker, g: Totals, storeName: string, purpose: string, m: Meta): (Meta, bool) {
    var st := StoreKey(storeName);
    if !cfg.governance || !cfg.storeBudgets then (m, true)
    else if Lower(st) in cfg.bypassStores then (m.(bypass := true), true)
    else
      var m' := Downgrade(cfg, t, g, st, m, 3);
      (m', DecideRequest(cfg, t, g, st, PurposeOf(purpose), ModeOf(m')).allowed)
  }

  function Up(m: Table, st: Store): Table {
    m[st := At(m, st) + 1]
  }

  /** One less, but never below zero. */
  function Down(m: Table, st: Store): Table {
    m[st := if At(m, st) == 0 then 0 else At(m, st) - 1]
  }

  /** The counters after a request tagged like this is recorded. */
  function Counted(t: Tracker, st: Store, tag: GovTag): Tracker {
    Tracker(
      Up(t.total, st),
      if tag.purpose == Listing then Up(t.listing, st) else t.listing,
      if tag.purpose == Product then Up(t.product, st) else t.product,
      if tag.mode == "browser" then Up(t.browser, st) else t.browser,
      if tag.mode == "proxy" then Up(t.proxy, st) else t.proxy,
      t.retryQueue)
  }

  function Released(t: Tracker, st: Store, tag: GovTag): Tracker {
    Tracker(
      Down(t.total, st),
      if tag.purpose == Listing then Down(t.listing, st) else t.listing,
      if tag.purpose == Product then Down(t.product, st) else t.product,
      if tag.mode == "browser" then Down(t.browser, st) else t.browser,
      if tag.mode == "proxy" then Down(t.proxy, st) else t.proxy,
      t.retryQueue)
  }

  function TagOf(purpose: string, m: Meta): GovTag {
    GovTag(PurposeOf(purpose), SelectedMode(m), m.bypass)
  }

  function Record(cfg: Config, t: Tracker, storeName: string, purpose: string, m: Meta): (Tracker, Meta) {
    if !cfg.governance then (t, m)
    else
      var tag := TagOf(purpose, m);
      (if m.bypass then t else Counted(t, StoreKey(storeName), tag), m.(tag := Some(tag)))
  }

  function Release(cfg: Config, t: Tracker, storeName: string, m: Meta): Tracker {
    if !cfg.governance || m.tag.None? || m.tag.value.bypass then t
    else Released(t, StoreKey(storeName), m.tag.value)
  }

  /** The counters after the retry queue of a store is reported to hold `size` items. */
  function RetryQueued(cfg: Config, t: Tracker, storeName: string, size: int): Tracker {
    if cfg.governance then t.(retryQueue := t.retryQueue[StoreKey(storeName) := if size < 0 then 0 else size]) else t
  }

  // ----- in place

  /** A request's `meta` dict, mutated by governance. */
  class RequestMeta {
    var accessMode: string
    var playwright: bool
    var proxy: string
    var bypass: bool
    var tag: Option<GovTag>

    constructor (m: Meta)
      ensures Value() == m
    {
      accessMode, playwright, proxy, bypass, tag := m.accessMode, m.playwright, m.proxy, m.bypass, m.tag;
    }

    function Value(): Meta
      reads this
    {
      Meta(accessMode, playwright, proxy, bypass, tag)
    }

    method StripBrowserFromMeta()
      modifies this
      ensures Value() == StripBrowser(old(Value()))
    {
      playwright := false;
      accessMode := "plain";
    }

    method StripProxyFromMeta()
      modifies this
      ensures Value() == StripProxy(old(Value()))
    {
      proxy := "";
      if accessMode == "proxy" {
        accessMode := "plain";
      }
    }
  }

  /** The module-level counters with the operations on them. */
  class ResourceTracker {
    var total: Table
    var listing: Table
    var product: Table
    var browser: Table
    var proxy: Table
    var retryQueue: Table

    constructor ()
      ensures Value() == EMPTY_TRACKER
    {
      total, listing, product, browser, proxy, retryQueue := map[], map[], map[], map[], map[], map[];
    }

    function Value(): Tracker
      reads this
    {
      Tracker(total, listing, product, browser, proxy, retryQueue)
    }

    method ReadTotals() returns (g: Totals)
      ensures g == TotalsOf(Value())
    {
      var requests := GlobalTotal(total);
      var pages := GlobalTotal(browser);
      var proxies := GlobalTotal(proxy);
      g := Totals(requests, pages, proxies);
    }

    method SetRetryableQueueSize(cfg: Config, storeName: string, size: int)
      modifies this
      ensures Value() == RetryQueued(cfg, old(Value()), storeName, size)
    {
      if !cfg.governance { return; }
      retryQueue := retryQueue[StoreKey(storeName) := if 0 < size then size else 0];
    }

    /** The loop that prefers plain HTTP while browser or proxy budgets are saturated. */
    method DowngradeRequestMeta(cfg: Config, st: Store, g: Totals, meta: RequestMeta)
      modifies meta
      ensures meta.Value() == Downgrade(cfg, Value(), g, st, old(meta.Value()), 3)
    {
      var turns := 0;
      while turns < 3
        invariant 0 <= turns <= 3
        invariant Downgrade(cfg, Value(), g, st, meta.Value(), 3 - turns) ==
                  Downgrade(cfg, Value(), g, st, old(meta.Value()), 3)
      {
        var mode := ModeOf(meta.Value());
        if mode == Browser && cfg.browserBudgets && !DecideBrowser(cfg, Value(), g, st).allowed {
          meta.StripBrowserFromMeta();
        } else if mode == Proxy && cfg.proxyBudgets && !DecideProxy(cfg, Value(), g, st).allowed {
          meta.StripProxyFromMeta();
        } else {
          break;
        }
        turns := turns + 1;
      }
    }

    method ApplyGovernanceToRequestMeta(cfg: Config, storeName: string, purpose: string, meta: RequestMeta)
      returns (admitted: bool)
      modifies meta
      ensures (meta.Value(), admitted) == Apply(cfg, Value(), TotalsOf(Value()), storeName, purpose, old(meta.Value()))
    {
      if !cfg.governance || !cfg.storeBudgets { return true; }
      var st := StoreKey(storeName);
      if Lower(st) in cfg.bypassStores {
        meta.bypass := true;
        return true;
      }
      var g := ReadTotals();
      DowngradeRequestMeta(cfg, st, g, meta);
      var decision := DecideRequest(cfg, Value(), g, st, PurposeOf(purpose), ModeOf(meta.Value()));
      admitted := decision.allowed;
    }

    method RecordRequestScheduled(cfg: Config, storeName: string, purpose: string, meta: RequestMeta)
      modifies this, meta
      ensures (Value(), meta.Value()) == Record(cfg, old(Value()), storeName, purpose, old(meta.Value()))
    {
      if !cfg.governance { return; }
      var st := StoreKey(storeName);
      var selected := SelectedMode(meta.Value());
      if meta.bypass {
        meta.tag := Some(GovTag(PurposeOf(purpose), selected, true));
        return;
      }
      total := Up(total, st);
      if PurposeOf(purpose) == Product {
        product := Up(product, st);
      } else {
        listing := Up(listing, st);
      }
      if selected == "browser" {
        browser := Up(browser, st);
      } else if selected == "proxy" {
        proxy := Up(proxy, st);
      }
      meta.tag := Some(GovTag(PurposeOf(purpose), selected, false));
    }

    method ReleaseRequestCounters(cfg: Config, storeName: string, meta: RequestMeta)
      modifies this
      ensures Value() == Release(cfg, old(Value()), storeName, meta.Value())
    {
      if !cfg.governance || meta.tag.None? || meta.tag.value.bypass { return; }
      var st := StoreKey(storeName);
      var gov := meta.tag.value;
      total := Down(total, st);
      if gov.purpose == Product {
        product := Down(product, st);
      } else {
        listing := Down(listing, st);
      }
      if gov.mode == "browser" {
        browser := Down(browser, st);
      } else if gov.mode == "proxy" {
        proxy := Down(proxy, st);
      }
    }
  }
}
