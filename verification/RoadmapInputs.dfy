/** What the planner makes of gaps and checklist rows: which items there are, and where each one goes. */
module RoadmapInputs {
  import opened DependencyGraph
  import opened Roadmap
  import opened RoadmapPlanner

  // ----- which codes

  /** A required row that is not ready asks for an item. */
  predicate AsksForWork(c: ChecklistItem) {
    c.required && c.status in {NotStarted, Partial, Blocked}
  }

  predicate HasGap(gaps: seq<ReadinessGap>, code: Code) {
    exists g :: g in gaps && code == "gap:" + g.gapCode
  }

  predicate HasRow(checklist: seq<ChecklistItem>, code: Code) {
    exists c :: c in checklist && AsksForWork(c) && code == "gap:checklist." + c.itemCode
  }

  lemma {:induction false} GapCodes(gaps: seq<ReadinessGap>, code: Code)
    ensures code in ItemCodes(GapItems(gaps)) <==> HasGap(gaps, code)
  {
    if gaps != [] {
      var rest, last := gaps[..|gaps| - 1], gaps[|gaps| - 1];
      GapCodes(rest, code);
      assert gaps == rest + [last];
      CodesSnoc(GapItems(rest), ItemFromGap(last));
    }
  }

  lemma CodesSnoc(items: seq<RoadmapItem>, it: RoadmapItem)
    ensures ItemCodes(items + [it]) == ItemCodes(items) + {it.itemCode}
  {
    assert it in items + [it];
  }

  lemma RowCode(c: ChecklistItem)
    ensures NeedsWork(c) <==> AsksForWork(c)
    ensures ItemFromGap(GapFromChecklist(c)).itemCode == "gap:checklist." + c.itemCode
  {
    assert "gap:" + ("checklist." + c.itemCode) == "gap:checklist." + c.itemCode;
  }

  lemma {:induction false} RowCodes(checklist: seq<ChecklistItem>, code: Code)
    ensures code in ItemCodes(ChecklistItems(checklist)) <==> HasRow(checklist, code)
  {
    if checklist != [] {
      var rest, last := checklist[..|checklist| - 1], checklist[|checklist| - 1];
      RowCodes(rest, code);
      RowCode(last);
      assert checklist == rest + [last];
      CodesSnoc(ChecklistItems(rest), ItemFromGap(GapFromChecklist(last)));
    }
  }

  lemma RequestedCodes(gaps: seq<ReadinessGap>, checklist: seq<ChecklistItem>, code: Code)
    ensures code in ItemCodes(RequestedItems(gaps, checklist)) <==> HasGap(gaps, code) || HasRow(checklist, code)
  {
    GapCodes(gaps, code);
    RowCodes(checklist, code);
    var a, b := GapItems(gaps), ChecklistItems(checklist);
    assert ItemCodes(a + b) == ItemCodes(a) + ItemCodes(b) by {
      assert forall i :: i in a + b <==> i in a || i in b;
    }
  }

  /** There is nothing to plan for: no gap, and every required row is ready. */
  predicate AllReady(gaps: seq<ReadinessGap>, checklist: seq<ChecklistItem>) {
    gaps == [] && forall c :: c in checklist && c.required ==> c.status == Ready
  }

  lemma SomethingRequested(gaps: seq<ReadinessGap>, checklist: seq<ChecklistItem>) returns (code: Code)
    requires !AllReady(gaps, checklist)
    ensures HasGap(gaps, code) || HasRow(checklist, code)
  {
    if gaps != [] {
      code := "gap:" + gaps[0].gapCode;
      assert gaps[0] in gaps;
    } else {
      var c :| c in checklist && c.required && c.status != Ready;
      code := "gap:checklist." + c.itemCode;
      assert AsksForWork(c);
    }
  }

  lemma NothingRequested(gaps: seq<ReadinessGap>, checklist: seq<ChecklistItem>)
    ensures FirstPerCode(RequestedItems(gaps, checklist)) == [] <==> AllReady(gaps, checklist)
  {
    var requested := RequestedItems(gaps, checklist);
    FirstPerCodeKeepsCodes(requested);
    EmptyCodes(FirstPerCode(requested));
    if AllReady(gaps, checklist) {
      forall code ensures code !in ItemCodes(requested) { RequestedCodes(gaps, checklist, code); }
    } else {
      var code := SomethingRequested(gaps, checklist);
      RequestedCodes(gaps, checklist, code);
    }
  }

  lemma EmptyCodes(items: seq<RoadmapItem>)
    ensures items == [] <==> ItemCodes(items) == {}
  {
    if items != [] { assert items[0] in items && items[0].itemCode in ItemCodes(items); }
  }

  /** The codes of the roadmap are those of the gaps and of the required rows that are not ready; the four
      seed items are planned exactly when there are none. */
  lemma PlannedCodesExactly(gaps: seq<ReadinessGap>, checklist: seq<ChecklistItem>)
    ensures !AllReady(gaps, checklist) ==>
              forall code :: code in ItemCodes(PlannedItems(gaps, checklist)) <==>
                  HasGap(gaps, code) || HasRow(checklist, code)
    ensures AllReady(gaps, checklist) <==> PlannedItems(gaps, checklist) == DefaultSeedItems()
  {
    var requested := RequestedItems(gaps, checklist);
    NothingRequested(gaps, checklist);
    FirstPerCodeKeepsCodes(requested);
    forall code ensures code in ItemCodes(requested) <==> HasGap(gaps, code) || HasRow(checklist, code) {
      RequestedCodes(gaps, checklist, code);
    }
    SeedsAreNoGaps(gaps, checklist);
    assert DefaultSeedItems()[0] in DefaultSeedItems();
    assert SEED_SECURITY in ItemCodes(DefaultSeedItems());
  }

  lemma SeedsAreNoGaps(gaps: seq<ReadinessGap>, checklist: seq<ChecklistItem>)
    ensures !HasGap(gaps, SEED_SECURITY) && !HasRow(checklist, SEED_SECURITY)
  {
    forall g | g in gaps ensures SEED_SECURITY != "gap:" + g.gapCode {
      assert ("gap:" + g.gapCode)[0] == 'g';
    }
    forall c | c in checklist ensures SEED_SECURITY != "gap:checklist." + c.itemCode {
      assert ("gap:checklist." + c.itemCode)[0] == 'g';
    }
  }

  // ----- where an item goes

  /** The workstream of each domain: two share that of another, the others have their own. */
  predicate RightWorkstream(w: Workstream, d: ReadinessDomain) {
    && (w == Crawl <==> d == CrawlDomain)
    && (w == Normalization <==> d == NormalizationDomain)
    && (w == CrmIntegration <==> d in {CrmIntegrationDomain, BatchApplyDomain})
    && (w == Lifecycle <==> d in {LifecycleDomain, ReplayReconciliationDomain})
    && (w == Observability <==> d == ObservabilityDomain)
    && (w == Support <==> d == SupportabilityDomain)
    && (w == Security <==> d == SecurityDomain)
    && (w == Performance <==> d == PerformanceDomain)
    && (w == ReleaseGovernance <==> d == ReleaseGovernanceDomain)
    && (w == Documentation <==> d == DocumentationDomain)
  }

  /** Being blocking and being critical each make an item more urgent; without either, severity decides. */
  predicate RightPriority(p: Priority, severity: Severity, blocking: bool) {
    && (p == P0 <==> blocking && severity == Critical)
    && (p == P1 <==> blocking != (severity == Critical))
    && (p == P2 <==> !blocking && severity == High)
    && (p == P3 <==> !blocking && severity in {Low, Medium})
  }

  predicate RightPhase(p: Phase, d: ReadinessDomain, severity: Severity, blocking: bool) {
    && (p == Foundation <==>
          || (blocking && d in {SecurityDomain, CrmIntegrationDomain, CrawlDomain})
          || (severity == Critical && d in {SecurityDomain, CrmIntegrationDomain}))
    && (p == GoLiveBaseline <==> blocking && d !in {SecurityDomain, CrmIntegrationDomain, CrawlDomain})
    && (p == ScaleMaturity <==>
          !blocking && severity == Low && d !in {PerformanceDomain, DocumentationDomain, SupportabilityDomain})
  }

  /** Everything the plan says about an item follows from domain, severity and blocking. */
  predicate Placed(it: RoadmapItem, d: ReadinessDomain, severity: Severity, blocking: bool) {
    && RightWorkstream(it.workstream, d) && RightPriority(it.priority, severity, blocking)
    && RightPhase(it.phase, d, severity, blocking)
    && it.blockingForGoLive == blocking && it.dependsOn == []
  }

  lemma GapIsPlaced(g: ReadinessGap)
    ensures Placed(ItemFromGap(g), g.domain, g.severity, g.blocking)
  {
  }

  /** A row counts as blocking when its risk is critical, or for security and CRM integration. */
  predicate RowBlocks(c: ChecklistItem) {
    c.riskIfMissing == Critical || c.domain == SecurityDomain || c.domain == CrmIntegrationDomain
  }

  lemma RowIsPlaced(c: ChecklistItem)
    ensures Placed(ItemFromGap(GapFromChecklist(c)), c.domain, c.riskIfMissing, RowBlocks(c))
  {
    GapIsPlaced(GapFromChecklist(c));
  }

  // ----- the first of each code

  ghost predicate FirstWithCode(requested: seq<RoadmapItem>, k: nat) {
    k < |requested| && forall j :: 0 <= j < k ==> requested[j].itemCode != requested[k].itemCode
  }

  /** What is kept is the first item of each code, in the order of the requests. */
  lemma {:induction false} FirstIsKept(requested: seq<RoadmapItem>, k: nat)
    requires FirstWithCode(requested, k)
    ensures requested[k] in FirstPerCode(requested)
    ensures FirstPerCode(requested[..k]) + [requested[k]] <= FirstPerCode(requested)
  {
    var n := |requested| - 1;
    assert requested == requested[..n] + [requested[n]];
    if k == n {
      assert requested[..k] == requested[..n];
      forall i | i in requested[..n] ensures i.itemCode != requested[n].itemCode {
        var j :| 0 <= j < n && requested[..n][j] == i;
        assert requested[j] == i;
      }
    } else {
      assert requested[..n][..k] == requested[..k];
      FirstIsKept(requested[..n], k);
    }
  }

  lemma {:induction false} GapItemAt(gaps: seq<ReadinessGap>, i: nat)
    requires i < |gaps|
    ensures |GapItems(gaps)| == |gaps| && GapItems(gaps)[i] == ItemFromGap(gaps[i])
  {
    if i < |gaps| - 1 {
      GapItemAt(gaps[..|gaps| - 1], i);
    } else if i > 0 {
      GapItemAt(gaps[..|gaps| - 1], i - 1);
    }
  }

  ghost predicate Planned(gaps: seq<ReadinessGap>, checklist: seq<ChecklistItem>, code: Code, d: ReadinessDomain,
                          severity: Severity, blocking: bool) {
    exists it :: it in PlannedItems(gaps, checklist) && it.itemCode == code && Placed(it, d, severity, blocking)
  }

  /** The first gap of each code is planned, and placed by its own domain, severity and blocking. */
  lemma GapIsPlanned(gaps: seq<ReadinessGap>, checklist: seq<ChecklistItem>, i: nat)
    requires i < |gaps| && forall j :: 0 <= j < i ==> gaps[j].gapCode != gaps[i].gapCode
    ensures Planned(gaps, checklist, "gap:" + gaps[i].gapCode, gaps[i].domain, gaps[i].severity, gaps[i].blocking)
  {
    var requested := RequestedItems(gaps, checklist);
    GapItemAt(gaps, i);
    assert requested[i] == ItemFromGap(gaps[i]);
    forall j | 0 <= j < i ensures requested[j].itemCode != requested[i].itemCode {
      GapItemAt(gaps, j);
      SameAfterPrefix(gaps[j].gapCode, gaps[i].gapCode);
    }
    FirstIsKept(requested, i);
    GapIsPlaced(gaps[i]);
  }

  lemma SameAfterPrefix(a: string, b: string)
    ensures "gap:" + a == "gap:" + b <==> a == b
    ensures "gap:checklist." + a == "gap:checklist." + b <==> a == b
  {
    assert ("gap:" + a)[4..] == a && ("gap:" + b)[4..] == b;
    assert ("gap:checklist." + a)[14..] == a && ("gap:checklist." + b)[14..] == b;
  }

  /** The rows before `m` that ask for work put their items before that of row `m`. */
  lemma {:induction false} RowItemAt(checklist: seq<ChecklistItem>, m: nat)
    requires m < |checklist| && AsksForWork(checklist[m])
    ensures ChecklistItems(checklist[..m]) + [ItemFromGap(GapFromChecklist(checklist[m]))] <= ChecklistItems(checklist)
  {
    var n := |checklist| - 1;
    if m == n {
      RowCode(checklist[m]);
    } else {
      assert checklist[..n][..m] == checklist[..m];
      RowItemAt(checklist[..n], m);
    }
  }

  /** The first row of each code that asks for work and is no gap is planned, as the gap it stands for. */
  lemma RowIsPlanned(gaps: seq<ReadinessGap>, checklist: seq<ChecklistItem>, m: nat)
    requires m < |checklist| && AsksForWork(checklist[m])
    requires !HasGap(gaps, "gap:checklist." + checklist[m].itemCode)
    requires !HasRow(checklist[..m], "gap:checklist." + checklist[m].itemCode)
    ensures Planned(gaps, checklist, "gap:checklist." + checklist[m].itemCode, checklist[m].domain,
                    checklist[m].riskIfMissing, RowBlocks(checklist[m]))
  {
    var requested := RequestedItems(gaps, checklist);
    var before := RequestedItems(gaps, checklist[..m]);
    var it := ItemFromGap(GapFromChecklist(checklist[m]));
    RowItemAt(checklist, m);
    RowCode(checklist[m]);
    assert before + [it] <= requested by {
      assert before + [it] == GapItems(gaps) + (ChecklistItems(checklist[..m]) + [it]);
    }
    RequestedCodes(gaps, checklist[..m], it.itemCode);
    var k := |before|;
    assert requested[k] == it;
    forall j | 0 <= j < k ensures requested[j].itemCode != it.itemCode {
      assert requested[j] == before[j] && before[j] in before;
    }
    FirstIsKept(requested, k);
    RowIsPlaced(checklist[m]);
  }

  // ----- go-live blockers

  lemma {:induction false} BlockersExactly(items: seq<RoadmapItem>, code: Code)
    ensures code in Blockers(items) <==> exists i :: i in items && i.blockingForGoLive && i.itemCode == code
  {
    if items != [] {
      BlockersExactly(items[..|items| - 1], code);
      assert items == items[..|items| - 1] + [items[|items| - 1]];
    }
  }

  predicate AfterLaunch(i: RoadmapItem) {
    !i.blockingForGoLive && i.phase != Foundation && i.phase != GoLiveBaseline
  }

  lemma {:induction false} PostLaunchExactly(items: seq<RoadmapItem>, code: Code)
    ensures code in PostLaunch(items) <==> exists i :: i in items && AfterLaunch(i) && i.itemCode == code
  {
    if items != [] {
      var rest, last := items[..|items| - 1], items[|items| - 1];
      PostLaunchExactly(rest, code);
      assert items == rest + [last];
      assert AfterLaunch(last) <==> !last.blockingForGoLive && last.phase in {PostLaunchHardening, ScaleMaturity} by {
        match last.phase case Foundation => case GoLiveBaseline => case PostLaunchHardening => case ScaleMaturity =>
      }
    }
  }

  /** The roadmap when everything is ready: security, then the transport to the CRM, then observability, all of
      them blocking, and last the tuning of costs. */
  lemma SeedRoadmap()
    ensures var items := DefaultSeedItems();
            && Blockers(items) ==
               ["seed:foundation.security", "seed:foundation.crm_transport", "seed:go_live.observability"]
            && PostLaunch(items) == ["seed:post.cost_tuning"]
            && |items| == 4 && items[0].priority == items[1].priority == P0 && items[2].priority == P1
            && items[3].priority == P2
            && [items[0].workstream, items[1].workstream, items[2].workstream, items[3].workstream] ==
               [Security, CrmIntegration, Observability, Performance]
            && [items[0].phase, items[1].phase, items[2].phase, items[3].phase] ==
               [Foundation, Foundation, GoLiveBaseline, PostLaunchHardening]
  {
    var items := DefaultSeedItems();
    assert items[..3][..2][..1][..0] == [];
    assert items[..3][..2][..1] == [items[0]] && items[..3][..2] == [items[0], items[1]];
    assert items[..3] == [items[0], items[1], items[2]];
    assert Blockers([items[0]]) == [items[0].itemCode] && PostLaunch([items[0]]) == [];
    assert Blockers([items[0], items[1]]) == [items[0].itemCode, items[1].itemCode];
    assert PostLaunch([items[0], items[1]]) == [];
  }
}
