/** How far a run of admit, record and release steps can get past its caps: not at all when each
    request is recorded before the next is admitted. */
module AdmissionCaps {
  import opened Wrappers
  import opened ConcurrencyPolicy
  import opened Counting
  import opened ResourceGovernance
  import opened AdmissionProtocol

  // ----- the caps

  predicate Enabled(cfg: Config, col: Column) {
    match col
    case BrowserColumn => cfg.browserBudgets
    case ProxyColumn => cfg.proxyBudgets
    case _ => true
  }

  function StoreCap(cfg: Config, col: Column, st: Store): int {
    var b := cfg.budgetOf(st);
    match col
    case TotalColumn => if b.maxConcurrent < cfg.globalRequests then b.maxConcurrent else cfg.globalRequests
    case ListingColumn => b.maxListing
    case ProductColumn => b.maxProduct
    case BrowserColumn => b.maxBrowser
    case ProxyColumn => b.maxProxy
  }

  function GlobalCap(cfg: Config, col: Column): Option<int> {
    match col
    case TotalColumn => Some(cfg.globalRequests)
    case BrowserColumn => Some(cfg.globalBrowser)
    case ProxyColumn => Some(cfg.globalProxy)
    case _ => None
  }

  /** Whether recording a waiting request will raise a column. */
  predicate WillCount(cfg: Config, w: Admitted, col: Column) {
    cfg.governance && !w.meta.bypass && TagCounts(TagOf(w.purpose, w.meta), col)
  }

  /** The request is waiting to raise a column, for one store or for all. */
  predicate WaitsFor(cfg: Config, w: Admitted, col: Column, st: Option<Store>) {
    WillCount(cfg, w, col) && (st.None? || StoreKey(w.storeName) == st.value)
  }

  function Waiting(cfg: Config, ws: seq<Admitted>, col: Column, st: Option<Store>): nat {
    Count(ws, (w: Admitted) => WaitsFor(cfg, w, col, st))
  }

  lemma WaitingSnoc(cfg: Config, ws: seq<Admitted>, w: Admitted, col: Column, st: Option<Store>)
    ensures Waiting(cfg, ws + [w], col, st) == Waiting(cfg, ws, col, st) + if WaitsFor(cfg, w, col, st) then 1 else 0
  {
    CountSnoc(ws, w, (w: Admitted) => WaitsFor(cfg, w, col, st));
  }

  lemma WaitingAtMost(cfg: Config, ws: seq<Admitted>, col: Column, st: Option<Store>)
    ensures Waiting(cfg, ws, col, st) <= |ws|
  {
    CountAtMost(ws, (w: Admitted) => WaitsFor(cfg, w, col, st));
  }

  lemma WaitingWithout(cfg: Config, ws: seq<Admitted>, i: nat, col: Column, st: Option<Store>)
    requires i < |ws|
    ensures Waiting(cfg, ws, col, st) ==
            Waiting(cfg, Without(ws, i), col, st) + if WaitsFor(cfg, ws[i], col, st) then 1 else 0
  {
    CountWithout(ws, i, (w: Admitted) => WaitsFor(cfg, w, col, st));
  }

  /** A column counted together with what is waiting, against its caps plus `extra`. */
  ghost predicate ColumnWithin(cfg: Config, t: Tracker, ws: seq<Admitted>, col: Column, extra: int) {
    && (forall st :: At(TableOf(t, col), st) + Waiting(cfg, ws, col, Some(st)) <= StoreCap(cfg, col, st) + extra)
    && (GlobalCap(cfg, col).Some? ==>
          Sum(TableOf(t, col)) + Waiting(cfg, ws, col, None) <= GlobalCap(cfg, col).value + extra)
  }

  /** No cap that the settings switch on is passed by more than `extra`, waiting requests included. */
  ghost predicate WithinBy(cfg: Config, t: Tracker, ws: seq<Admitted>, extra: int) {
    cfg.governance && cfg.storeBudgets ==> forall col :: Enabled(cfg, col) ==> ColumnWithin(cfg, t, ws, col, extra)
  }

  ghost predicate CapsHold(cfg: Config, t: Tracker) {
    WithinBy(cfg, t, [], 0)
  }

  lemma RecordedWithin(cfg: Config, t: Tracker, ws: seq<Admitted>, extra: int)
    requires WithinBy(cfg, t, ws, extra)
    ensures WithinBy(cfg, t, [], extra)
  {
    forall col | cfg.governance && cfg.storeBudgets && Enabled(cfg, col) ensures ColumnWithin(cfg, t, [], col, extra) {
      assert ColumnWithin(cfg, t, ws, col, extra);
      forall st ensures At(TableOf(t, col), st) <= StoreCap(cfg, col, st) + extra {
        assert At(TableOf(t, col), st) + Waiting(cfg, ws, col, Some(st)) <= StoreCap(cfg, col, st) + extra;
      }
    }
  }

  // ----- one step

  lemma UpSum(m: Table, st: Store)
    ensures Sum(Up(m, st)) == Sum(m) + 1 && forall x :: At(Up(m, st), x) == At(m, x) + if x == st then 1 else 0
  {
    SumUpdate(m, st, At(m, st) + 1);
  }

  lemma DownSum(m: Table, st: Store)
    ensures Sum(Down(m, st)) <= Sum(m) && forall x :: At(Down(m, st), x) <= At(m, x)
  {
    SumUpdate(m, st, if At(m, st) == 0 then 0 else At(m, st) - 1);
  }

  /** An admitted request found every counter it will raise strictly below its caps. */
  lemma AdmittedRoom(cfg: Config, t: Tracker, g: Totals, st: Store, purpose: Purpose, mode: Mode)
    requires cfg.governance && DecideRequest(cfg, t, g, st, purpose, mode).allowed
    ensures g.requests < cfg.globalRequests && At(t.total, st) < cfg.budgetOf(st).maxConcurrent
            && At(t.total, st) < cfg.globalRequests
    ensures purpose == Listing ==> At(t.listing, st) < cfg.budgetOf(st).maxListing
    ensures purpose == Product ==> At(t.product, st) < cfg.budgetOf(st).maxProduct
  {
    AllowedMeansRoom(cfg, t, g, st, purpose, mode);
  }

  lemma AdmittedModeRoom(cfg: Config, t: Tracker, g: Totals, st: Store, purpose: Purpose, mode: Mode)
    requires cfg.governance && DecideRequest(cfg, t, g, st, purpose, mode).allowed
    ensures mode == Browser && cfg.browserBudgets ==>
              g.browser < cfg.globalBrowser && At(t.browser, st) < cfg.budgetOf(st).maxBrowser
    ensures mode == Proxy && cfg.proxyBudgets ==>
              g.proxy < cfg.globalProxy && At(t.proxy, st) < cfg.budgetOf(st).maxProxy
  {
  }

  /** An admitted request found every counter it will raise strictly below its caps. */
  lemma AdmittedBelowCaps(cfg: Config, t: Tracker, storeName: string, purpose: string, meta: Meta, col: Column)
    requires cfg.governance && cfg.storeBudgets && Enabled(cfg, col)
    requires var (m, admitted) := Apply(cfg, t, TotalsOf(t), storeName, purpose, meta);
             admitted && WillCount(cfg, Admitted(storeName, purpose, m), col)
    ensures var st := StoreKey(storeName);
            && At(TableOf(t, col), st) < StoreCap(cfg, col, st)
            && (GlobalCap(cfg, col).Some? ==> Sum(TableOf(t, col)) < GlobalCap(cfg, col).value)
  {
    var st := StoreKey(storeName);
    var (m, admitted) := Apply(cfg, t, TotalsOf(t), storeName, purpose, meta);
    AdmittedRoom(cfg, t, TotalsOf(t), st, PurposeOf(purpose), ModeOf(m));
    AdmittedModeRoom(cfg, t, TotalsOf(t), st, PurposeOf(purpose), ModeOf(m));
  }

  /** One more waiting request fits if it found room: it and the others are at most `k`. */
  lemma AdmitStaysWithin(cfg: Config, t: Tracker, ws: seq<Admitted>, w: Admitted, col: Column, k: nat)
    requires ColumnWithin(cfg, t, ws, col, k - 1) && |ws| < k
    requires WillCount(cfg, w, col) ==>
               var st := StoreKey(w.storeName);
               && At(TableOf(t, col), st) < StoreCap(cfg, col, st)
               && (GlobalCap(cfg, col).Some? ==> Sum(TableOf(t, col)) < GlobalCap(cfg, col).value)
    ensures ColumnWithin(cfg, t, ws + [w], col, k - 1)
  {
    forall st ensures At(TableOf(t, col), st) + Waiting(cfg, ws + [w], col, Some(st)) <= StoreCap(cfg, col, st)
      + k - 1 {
      assert At(TableOf(t, col), st) + Waiting(cfg, ws, col, Some(st)) <= StoreCap(cfg, col, st) + k - 1;
      WaitingSnoc(cfg, ws, w, col, Some(st));
      WaitingAtMost(cfg, ws, col, Some(st));
    }
    WaitingSnoc(cfg, ws, w, col, None);
    WaitingAtMost(cfg, ws, col, None);
  }

  /** Recording moves a request from the waiting ones to the counters. */
  lemma RecordStaysWithin(cfg: Config, t: Tracker, ws: seq<Admitted>, i: nat, col: Column, extra: int)
    requires i < |ws| && cfg.governance && ColumnWithin(cfg, t, ws, col, extra)
    ensures ColumnWithin(cfg, Record(cfg, t, ws[i].storeName, ws[i].purpose, ws[i].meta).0, Without(ws, i), col, extra)
  {
    var w := ws[i];
    var key := StoreKey(w.storeName);
    var t' := Record(cfg, t, w.storeName, w.purpose, w.meta).0;
    CountedColumn(t, key, TagOf(w.purpose, w.meta), col);
    assert TableOf(t', col) == if WillCount(cfg, w, col) then Up(TableOf(t, col), key) else TableOf(t, col);
    UpSum(TableOf(t, col), key);
    forall st ensures At(TableOf(t', col), st) + Waiting(cfg, Without(ws, i), col, Some(st)) <= StoreCap(cfg, col, st)
      + extra {
      assert At(TableOf(t, col), st) + Waiting(cfg, ws, col, Some(st)) <= StoreCap(cfg, col, st) + extra;
      WaitingWithout(cfg, ws, i, col, Some(st));
    }
    WaitingWithout(cfg, ws, i, col, None);
  }

  lemma LowerStaysWithin(cfg: Config, t: Tracker, t': Tracker, ws: seq<Admitted>, col: Column, extra: int)
    requires ColumnWithin(cfg, t, ws, col, extra) && Sum(TableOf(t', col)) <= Sum(TableOf(t, col))
    requires forall st :: At(TableOf(t', col), st) <= At(TableOf(t, col), st)
    ensures ColumnWithin(cfg, t', ws, col, extra)
  {
    forall st ensures At(TableOf(t', col), st) + Waiting(cfg, ws, col, Some(st)) <= StoreCap(cfg, col, st) + extra {
      assert At(TableOf(t, col), st) + Waiting(cfg, ws, col, Some(st)) <= StoreCap(cfg, col, st) + extra;
    }
  }

  lemma ReleaseStaysWithin(cfg: Config, t: Tracker, storeName: string, m: Meta, ws: seq<Admitted>, col: Column,
                           extra: int)
    requires ColumnWithin(cfg, t, ws, col, extra)
    ensures ColumnWithin(cfg, Release(cfg, t, storeName, m), ws, col, extra)
  {
    if cfg.governance && m.tag.Some? && !m.tag.value.bypass {
      CountedColumn(t, StoreKey(storeName), m.tag.value, col);
      DownSum(TableOf(t, col), StoreKey(storeName));
    }
    LowerStaysWithin(cfg, t, Release(cfg, t, storeName, m), ws, col, extra);
  }

  lemma AdmitStepWithin(cfg: Config, s: State, storeName: string, purpose: string, meta: Meta, col: Column, k: nat)
    requires cfg.governance && cfg.storeBudgets && Enabled(cfg, col)
    requires ColumnWithin(cfg, s.tracker, s.waiting, col, k - 1)
    requires |Next(cfg, s, Admit(storeName, purpose, meta)).waiting| <= k
    ensures var s' :=
            Next(cfg, s, Admit(storeName, purpose, meta)); ColumnWithin(cfg, s'.tracker, s'.waiting, col, k - 1)
  {
    var (m, admitted) := Apply(cfg, s.tracker, TotalsOf(s.tracker), storeName, purpose, meta);
    if admitted {
      var w := Admitted(storeName, purpose, m);
      if WillCount(cfg, w, col) { AdmittedBelowCaps(cfg, s.tracker, storeName, purpose, meta, col); }
      AdmitStaysWithin(cfg, s.tracker, s.waiting, w, col, k);
    }
  }

  /** With at most `k` requests waiting, no step gets past a cap by more than `k - 1`. */
  lemma NextWithin(cfg: Config, s: State, step: Step, k: nat)
    requires WithinBy(cfg, s.tracker, s.waiting, k - 1) && |Next(cfg, s, step).waiting| <= k
    ensures var s' := Next(cfg, s, step); WithinBy(cfg, s'.tracker, s'.waiting, k - 1)
  {
    var s' := Next(cfg, s, step);
    forall col | cfg.governance && cfg.storeBudgets && Enabled(cfg, col)
      ensures ColumnWithin(cfg, s'.tracker, s'.waiting, col, k - 1)
    {
      assert ColumnWithin(cfg, s.tracker, s.waiting, col, k - 1);
      match step
      case Admit(storeName, purpose, meta) => AdmitStepWithin(cfg, s, storeName, purpose, meta, col, k);
      case Recorded(i) => if i < |s.waiting| { RecordStaysWithin(cfg, s.tracker, s.waiting, i, col, k - 1); }
      case Finish(i) =>
        if i < |s.outstanding| {
          ReleaseStaysWithin(cfg, s.tracker, s.outstanding[i].storeName, s.outstanding[i].meta, s.waiting, col, k - 1);
        }
      case SetRetryQueue(storeName, size) => assert TableOf(s'.tracker, col) == TableOf(s.tracker, col);
    }
  }

  // ----- whole runs

  ghost predicate AtMostWaiting(cfg: Config, steps: seq<Step>, k: nat) {
    forall i :: 0 <= i <= |steps| ==> |Run(cfg, steps[..i]).waiting| <= k
  }

  lemma {:induction false} RunWithin(cfg: Config, steps: seq<Step>, k: nat)
    requires k >= 1 && AtMostWaiting(cfg, steps, k)
    ensures WithinBy(cfg, Run(cfg, steps).tracker, Run(cfg, steps).waiting, k - 1)
  {
    if steps == [] {
      assert Sum(map[]) == 0;
    } else {
      var n := |steps| - 1;
      assert forall i :: 0 <= i <= n ==> steps[..n][..i] == steps[..i];
      assert steps[..|steps|] == steps;
      RunWithin(cfg, steps[..n], k);
      NextWithin(cfg, Run(cfg, steps[..n]), steps[n], k);
    }
  }

  /** In every reachable state of a run in which at most `k` admitted requests wait to be recorded, no
      per-store or global cap that is switched on is passed by more than `k - 1`; with one at a time
      they all hold. */
  lemma EveryRunIsSafe(cfg: Config, steps: seq<Step>, k: nat)
    requires k >= 1 && AtMostWaiting(cfg, steps, k)
    ensures WithinBy(cfg, Run(cfg, steps).tracker, [], k - 1)
    ensures k == 1 ==> CapsHold(cfg, Run(cfg, steps).tracker)
  {
    RunWithin(cfg, steps, k);
    RecordedWithin(cfg, Run(cfg, steps).tracker, Run(cfg, steps).waiting, k - 1);
  }

  // ----- the bound is reached

  /** A request that admission leaves as it is, when nothing is counted yet. */
  ghost predicate AdmittedWhenIdle(cfg: Config, w: Admitted) {
    Apply(cfg, EMPTY_TRACKER, TotalsOf(EMPTY_TRACKER), w.storeName, w.purpose, w.meta) == (w.meta, true)
  }

  /** The request admitted `n` times, one after the other. */
  function AdmitSteps(w: Admitted, n: nat): seq<Step> {
    if n == 0 then [] else AdmitSteps(w, n - 1) + [Admit(w.storeName, w.purpose, w.meta)]
  }

  /** The steps `base`, and then `j` waiting requests recorded. */
  function RecordSteps(base: seq<Step>, j: nat): seq<Step> {
    if j == 0 then base else RecordSteps(base, j - 1) + [Recorded(0)]
  }

  /** The request admitted `k` times, and then recorded `j` times. */
  function OvershootSteps(w: Admitted, k: nat, j: nat): seq<Step> {
    RecordSteps(AdmitSteps(w, k), j)
  }

  function Repeated(w: Admitted, n: nat): seq<Admitted> {
    if n == 0 then [] else Repeated(w, n - 1) + [w]
  }

  lemma RunSnoc(cfg: Config, steps: seq<Step>, step: Step)
    ensures Run(cfg, steps + [step]) == Next(cfg, Run(cfg, steps), step)
  {
    assert (steps + [step])[..|steps|] == steps;
  }

  lemma {:induction false} AllAdmitted(cfg: Config, w: Admitted, n: nat)
    requires AdmittedWhenIdle(cfg, w)
    ensures Run(cfg, AdmitSteps(w, n)) == State(EMPTY_TRACKER, Repeated(w, n), [])
  {
    if n > 0 {
      AllAdmitted(cfg, w, n - 1);
      RunSnoc(cfg, AdmitSteps(w, n - 1), Admit(w.storeName, w.purpose, w.meta));
    }
  }

  lemma {:induction false} DropFirstRepeated(w: Admitted, n: nat)
    requires n > 0
    ensures |Repeated(w, n)| == n && Repeated(w, n)[0] == w && Without(Repeated(w, n), 0) == Repeated(w, n - 1)
  {
    if n > 1 {
      DropFirstRepeated(w, n - 1);
      assert Without(Repeated(w, n), 0) == Without(Repeated(w, n - 1), 0) + [w];
    }
  }

  lemma RecordFirst(cfg: Config, s: State, w: Admitted, n: nat)
    requires n > 0 && s.waiting == Repeated(w, n) && cfg.governance && !w.meta.bypass
    ensures var s' := Next(cfg, s, Recorded(0));
            s'.waiting == Repeated(w, n - 1) && Sum(s'.tracker.total) == Sum(s.tracker.total) + 1
  {
    DropFirstRepeated(w, n);
    UpSum(s.tracker.total, StoreKey(w.storeName));
  }

  ghost predicate RecordedSoFar(s: State, w: Admitted, left: nat, done: nat) {
    Sum(s.tracker.total) == done && s.waiting == Repeated(w, left)
  }

  /** The state after the first waiting request was recorded `j` times over. */
  ghost function RecordFrom(cfg: Config, s: State, j: nat): State {
    if j == 0 then s else Next(cfg, RecordFrom(cfg, s, j - 1), Recorded(0))
  }

  lemma {:induction false} RecordedFrom(cfg: Config, s: State, w: Admitted, k: nat, j: nat)
    requires RecordedSoFar(s, w, k, 0) && cfg.governance && !w.meta.bypass && j <= k
    ensures RecordedSoFar(RecordFrom(cfg, s, j), w, k - j, j)
  {
    if j > 0 {
      RecordedFrom(cfg, s, w, k, j - 1);
      RecordFirst(cfg, RecordFrom(cfg, s, j - 1), w, k - (j - 1));
    }
  }

  lemma {:induction false} RunRecords(cfg: Config, base: seq<Step>, j: nat)
    ensures Run(cfg, RecordSteps(base, j)) == RecordFrom(cfg, Run(cfg, base), j)
  {
    if j > 0 {
      RunRecords(cfg, base, j - 1);
      RunSnoc(cfg, RecordSteps(base, j - 1), Recorded(0));
    }
  }

  lemma AllRecorded(cfg: Config, base: seq<Step>, w: Admitted, k: nat, j: nat)
    requires RecordedSoFar(Run(cfg, base), w, k, 0) && cfg.governance && !w.meta.bypass && j <= k
    ensures RecordedSoFar(Run(cfg, RecordSteps(base, j)), w, k - j, j)
  {
    RunRecords(cfg, base, j);
    RecordedFrom(cfg, Run(cfg, base), w, k, j);
  }

  lemma NoneRecorded(cfg: Config, w: Admitted, k: nat)
    requires AdmittedWhenIdle(cfg, w)
    ensures RecordedSoFar(Run(cfg, AdmitSteps(w, k)), w, k, 0)
  {
    AllAdmitted(cfg, w, k);
    assert Sum(map[]) == 0;
  }

  lemma {:induction false} RepeatedLength(w: Admitted, n: nat)
    ensures |Repeated(w, n)| == n
  {
    if n > 0 { RepeatedLength(w, n - 1); }
  }

  lemma {:induction false} AdmitsWaitAtMost(cfg: Config, w: Admitted, n: nat, i: nat)
    requires AdmittedWhenIdle(cfg, w) && i <= |AdmitSteps(w, n)|
    ensures |Run(cfg, AdmitSteps(w, n)[..i]).waiting| <= n
  {
    if i == |AdmitSteps(w, n)| {
      assert AdmitSteps(w, n)[..i] == AdmitSteps(w, n);
      AllAdmitted(cfg, w, n);
      RepeatedLength(w, n);
    } else {
      assert AdmitSteps(w, n)[..i] == AdmitSteps(w, n - 1)[..i];
      AdmitsWaitAtMost(cfg, w, n - 1, i);
    }
  }

  lemma {:induction false} OvershootWaitsAtMost(cfg: Config, w: Admitted, k: nat, j: nat, i: nat)
    requires AdmittedWhenIdle(cfg, w) && cfg.governance && !w.meta.bypass && j <= k && i <= |OvershootSteps(w, k, j)|
    ensures |Run(cfg, OvershootSteps(w, k, j)[..i]).waiting| <= k
  {
    if j == 0 {
      AdmitsWaitAtMost(cfg, w, k, i);
    } else if i == |OvershootSteps(w, k, j)| {
      assert OvershootSteps(w, k, j)[..i] == OvershootSteps(w, k, j);
      NoneRecorded(cfg, w, k);
      AllRecorded(cfg, AdmitSteps(w, k), w, k, j);
      RepeatedLength(w, k - j);
    } else {
      assert OvershootSteps(w, k, j)[..i] == OvershootSteps(w, k, j - 1)[..i];
      OvershootWaitsAtMost(cfg, w, k, j - 1, i);
    }
  }

  /** Room for a single request. */
  function TightConfig(): Config {
    Config(true, true, true, true, 1, 0, 0, 1, 1, st => Budget(1, 1, 1, 1, 0, 0), {})
  }

  function PlainRequest(): Admitted {
    Admitted("s", "product", Meta("plain", false, "", false, None))
  }

  lemma OverTheCap(cfg: Config, t: Tracker)
    requires cfg.governance && cfg.storeBudgets && Sum(t.total) > cfg.globalRequests
    ensures !CapsHold(cfg, t)
  {
    assert Enabled(cfg, TotalColumn);
    assert TableOf(t, TotalColumn) == t.total;
  }

  /** The bound is reached: `k` requests admitted before the first is recorded all get in where one fits. */
  lemma BoundIsReached(k: nat)
    ensures var steps := OvershootSteps(PlainRequest(), k, k);
            && AtMostWaiting(TightConfig(), steps, k)
            && Sum(Run(TightConfig(), steps).tracker.total) == k
            && (k > 1 ==> !CapsHold(TightConfig(), Run(TightConfig(), steps).tracker))
  {
    var cfg, w := TightConfig(), PlainRequest();
    var steps := OvershootSteps(w, k, k);
    forall i | 0 <= i <= |steps| ensures |Run(cfg, steps[..i]).waiting| <= k {
      OvershootWaitsAtMost(cfg, w, k, k, i);
    }
    NoneRecorded(cfg, w, k);
    AllRecorded(cfg, AdmitSteps(w, k), w, k, k);
    if k > 1 { OverTheCap(cfg, Run(cfg, steps).tracker); }
  }

  /** So the caps hold in all runs with at most `k` waiting requests exactly when `k` is at most one. */
  lemma CapsNeedOneAtATime(k: nat)
    ensures k <= 1 <==>
              forall cfg: Config, steps: seq<Step> :: AtMostWaiting(cfg, steps, k) ==>
                CapsHold(cfg, Run(cfg, steps).tracker)
  {
    if k <= 1 {
      forall cfg: Config, steps: seq<Step> | AtMostWaiting(cfg, steps, k)
        ensures CapsHold(cfg, Run(cfg, steps).tracker) {
        EveryRunIsSafe(cfg, steps, 1);
      }
    } else {
      BoundIsReached(k);
    }
  }
}
