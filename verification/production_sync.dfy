/**
 * The `useProductionData` hook and the `ProductionAPI` getters
 * (services/production-api.ts): loading lines, metrics and failures with
 * the built-in fallback data, and the four state patches that follow a
 * successful backend call. Each backend answer and the clock (`now`, in
 * epoch milliseconds) are inputs.
 */
module ProductionSync {
  import opened Wrappers

  datatype Product = Product(
    id: string, serialNumber: string, barcode: Option<string>, model: string,
    currentStage: int, totalStages: int, stageTimes: seq<int>,
    totalActiveTime: int, idleTime: int, status: string)

  datatype ProductionLine = ProductionLine(
    id: string, name: string, model: string, currentProduction: int, targetProduction: int,
    status: string, efficiency: real, lastUpdate: int, issues: seq<string>, products: seq<Product>)

  datatype ProductionMetrics = ProductionMetrics(
    totalProduced: int, totalTarget: int, overallEfficiency: real,
    activeLines: int, totalIssues: int, averageCycleTime: real)

  datatype FailureRecord = FailureRecord(
    id: string, lineId: string, stage: int, startTime: int, endTime: Option<int>,
    duration: int, status: string, description: string, severity: string)

  datatype SyncState = SyncState(
    lines: seq<ProductionLine>, metrics: Option<ProductionMetrics>, failures: seq<FailureRecord>,
    isLoading: bool, error: Option<string>)

  const RESOLVED: string := "resolved"
  const OPEN: string := "open"

  // ----- Fallback data -----

  function MockLines(now: int): seq<ProductionLine> {
    [ ProductionLine("line-1", "Linha 1", "20RT COMPACT BR", 127, 150, "running", 84.7, now,
        ["Temperatura elevada no estágio 3"],
        [Product("prod-1", "1209F25A16806100", None, "MOD:20RT COMPACT BR", 3, 5,
                 [1703145600000, 1703148300000, 1703150980000, 0, 0],
                 1703150980000 - 1703145600000, 900000, "in_production")]),
      ProductionLine("line-2", "Linha 2", "30RT STANDARD BR", 110, 140, "maintenance", 78.6, now,
        ["Manutenção preventiva programada"], []),
      ProductionLine("line-3", "Linha 3", "40RT PREMIUM BR", 95, 120, "running", 79.2, now, [], []) ]
  }

  function MockMetrics(): ProductionMetrics {
    ProductionMetrics(332, 410, 81.0, 2, 2, 45.5)
  }

  function MockFailures(now: int): seq<FailureRecord> {
    [ FailureRecord("failure-1", "line-1", 2, now - 1800000, Some(now), 1800000, RESOLVED,
        "Falha no sistema de refrigeração", "medium"),
      FailureRecord("failure-2", "line-2", 1, now - 3600000, None, 3600000, OPEN,
        "Manutenção preventiva em andamento", "low") ]
  }

  function SumProduction(lines: seq<ProductionLine>): int
    decreases |lines|
  {
    if |lines| == 0 then 0 else lines[0].currentProduction + SumProduction(lines[1..])
  }

  function SumTarget(lines: seq<ProductionLine>): int
    decreases |lines|
  {
    if |lines| == 0 then 0 else lines[0].targetProduction + SumTarget(lines[1..])
  }

  function CountRunning(lines: seq<ProductionLine>): nat
    decreases |lines|
  {
    if |lines| == 0 then 0 else (if lines[0].status == "running" then 1 else 0) + CountRunning(lines[1..])
  }

  function SumIssues(lines: seq<ProductionLine>): nat
    decreases |lines|
  {
    if |lines| == 0 then 0 else |lines[0].issues| + SumIssues(lines[1..])
  }

  /** `x` is `exact` rounded to the nearest half-unit `step` (0.5 for whole numbers, 0.05 for one decimal). */
  predicate RoundsTo(x: real, exact: real, step: real) {
    x - step <= exact < x + step
  }

  /** A failure is resolved exactly when it has an end time. */
  predicate WellRecorded(f: FailureRecord) {
    (f.status == RESOLVED <==> f.endTime.Some?) && (f.status == RESOLVED || f.status == OPEN)
  }

  /**
   * The fallback data is self-consistent: the metrics are the lines'
   * totals, the running-line count and the issue count; each efficiency is
   * the line's percentage to one decimal; the overall efficiency is the
   * total percentage rounded; the sample product's active time spans its
   * recorded stages; and the sample failures' durations are their ages.
   */
  lemma MockDataConsistent(now: int)
    ensures var lines := MockLines(now); var m := MockMetrics();
      && m.totalProduced == SumProduction(lines)
      && m.totalTarget == SumTarget(lines)
      && m.activeLines == CountRunning(lines)
      && m.totalIssues == SumIssues(lines)
      && RoundsTo(m.overallEfficiency, (m.totalProduced as real) * 100.0 / (m.totalTarget as real), 0.5)
      && (forall i :: 0 <= i < |lines| ==>
            RoundsTo(lines[i].efficiency,
                     (lines[i].currentProduction as real) * 100.0 / (lines[i].targetProduction as real), 0.05))
    ensures var p := MockLines(now)[0].products[0];
      && |p.stageTimes| == p.totalStages
      && p.totalActiveTime == p.stageTimes[p.currentStage - 1] - p.stageTimes[0]
      && (forall i :: 0 <= i < |p.stageTimes| ==> (p.stageTimes[i] != 0 <==> i < p.currentStage))
    ensures forall f :: f in MockFailures(now) ==> WellRecorded(f) && f.duration == now - f.startTime
  {
    ThreeLineTotals(MockLines(now));
  }

  lemma ThreeLineTotals(lines: seq<ProductionLine>)
    requires |lines| == 3
    ensures SumProduction(lines) == lines[0].currentProduction + lines[1].currentProduction + lines[2].currentProduction
    ensures SumTarget(lines) == lines[0].targetProduction + lines[1].targetProduction + lines[2].targetProduction
    ensures CountRunning(lines) ==
      (if lines[0].status == "running" then 1 else 0) + (if lines[1].status == "running" then 1 else 0)
      + (if lines[2].status == "running" then 1 else 0)
    ensures SumIssues(lines) == |lines[0].issues| + |lines[1].issues| + |lines[2].issues|
  {
    var t1 := lines[1..];
    var t2 := t1[1..];
    assert t1[0] == lines[1] && t2[0] == lines[2] && t2[1..] == [];
    assert SumProduction(t2) == lines[2].currentProduction && SumTarget(t2) == lines[2].targetProduction;
    assert CountRunning(t2) == (if lines[2].status == "running" then 1 else 0) && SumIssues(t2) == |lines[2].issues|;
  }

  /** The number of failures still open: the other reading of `totalIssues`. */
  function CountOpen(fs: seq<FailureRecord>): nat
    decreases |fs|
  {
    if |fs| == 0 then 0 else (if fs[0].status == OPEN then 1 else 0) + CountOpen(fs[1..])
  }

  /**
   * Read as the number of open failures, the fallback `totalIssues` does not
   * match the fallback failures: one of the two is open, and the figure is 2.
   */
  lemma {:induction false} MockOpenFailures(now: int)
    ensures CountOpen(MockFailures(now)) == 1
    ensures MockMetrics().totalIssues == 2
  {
    var fs := MockFailures(now);
    assert fs[1..][1..] == [];
    assert CountOpen(fs[1..]) == 1;
  }

  // ----- Loading -----

  /** How a GET settled: a decoded body, a non-OK status, or a failure to fetch or decode. */
  datatype HttpOutcome<T> = Ok(body: T) | HttpError(status: int) | NetworkError

  /** Every getter catches its own error and answers the fallback data instead, so it never rejects. */
  function OrFallback<T>(o: HttpOutcome<T>, fallback: T): (r: T)
    ensures o.Ok? ==> r == o.body
    ensures !o.Ok? ==> r == fallback
  {
    if o.Ok? then o.body else fallback
  }

  function GetProductionLines(o: HttpOutcome<seq<ProductionLine>>, now: int): seq<ProductionLine> {
    OrFallback(o, MockLines(now))
  }

  function GetProductionMetrics(o: HttpOutcome<ProductionMetrics>): ProductionMetrics {
    OrFallback(o, MockMetrics())
  }

  function GetFailureRecords(o: HttpOutcome<seq<FailureRecord>>, now: int): seq<FailureRecord> {
    OrFallback(o, MockFailures(now))
  }

  /**
   * `fetchData`: the three getters cannot reject, so the `catch` is never
   * taken; the call replaces all three collections and ends idle with no
   * error.
   */
  function FetchData(st: SyncState, lines: HttpOutcome<seq<ProductionLine>>, metrics: HttpOutcome<ProductionMetrics>,
                     failures: HttpOutcome<seq<FailureRecord>>, now: int): (r: SyncState)
    ensures !r.isLoading && r.error.None? && r.metrics.Some?
    ensures lines.Ok? ==> r.lines == lines.body
    ensures failures.Ok? ==> r.failures == failures.body
    ensures metrics.Ok? ==> r.metrics == Some(metrics.body)
    ensures !lines.Ok? ==> r.lines == MockLines(now)
    ensures !metrics.Ok? ==> r.metrics == Some(MockMetrics())
    ensures !failures.Ok? ==> r.failures == MockFailures(now)
  {
    SyncState(GetProductionLines(lines, now), Some(GetProductionMetrics(metrics)),
              GetFailureRecords(failures, now), false, None)
  }

  /** What was on screen before a load does not matter afterwards. */
  lemma FetchDataForgetsPrevious(a: SyncState, b: SyncState, lines: HttpOutcome<seq<ProductionLine>>,
                                 metrics: HttpOutcome<ProductionMetrics>, failures: HttpOutcome<seq<FailureRecord>>, now: int)
    ensures FetchData(a, lines, metrics, failures, now) == FetchData(b, lines, metrics, failures, now)
  {
  }

  /** With the backend down the dashboard still loads, and what it shows is the consistent fallback data. */
  lemma OfflineLoadShowsFallback(st: SyncState, now: int)
    ensures var r := FetchData(st, NetworkError, NetworkError, NetworkError, now);
      && r.metrics.Some? && r.metrics.value.totalProduced == SumProduction(r.lines)
      && r.metrics.value.activeLines == CountRunning(r.lines)
      && (forall f :: f in r.failures ==> WellRecorded(f))
      && |r.lines| == 3 && |r.failures| == 2
  {
    MockDataConsistent(now);
  }

  // ----- Line patches -----

  datatype FlagStep = FlagStep(state: SyncState, success: bool)

  /** `updateLineStatus`: on success the matching lines take the status and the time; on failure nothing changes. */
  function UpdateLineStatus(st: SyncState, lineId: string, status: string, ok: bool, now: int): (r: FlagStep)
    ensures r.success == ok
    ensures !ok ==> r.state == st
    ensures |r.state.lines| == |st.lines|
    ensures r.state.metrics == st.metrics && r.state.failures == st.failures
    ensures r.state.isLoading == st.isLoading && r.state.error == st.error
    ensures ok ==> forall i :: 0 <= i < |st.lines| ==>
      var before := st.lines[i]; var after := r.state.lines[i];
      if before.id == lineId then
        after.status == status && after.lastUpdate == now
        && after.(status := before.status, lastUpdate := before.lastUpdate) == before
      else after == before
  {
    if !ok then FlagStep(st, false)
    else
      var lines := seq(|st.lines|, i requires 0 <= i < |st.lines| =>
        if st.lines[i].id == lineId then st.lines[i].(status := status, lastUpdate := now) else st.lines[i]);
      FlagStep(st.(lines := lines), true)
  }

  /** Repeating a successful status update at the same time changes nothing more. */
  lemma UpdateLineStatusIdempotent(st: SyncState, lineId: string, status: string, now: int)
    ensures var once := UpdateLineStatus(st, lineId, status, true, now).state;
      UpdateLineStatus(once, lineId, status, true, now).state == once
  {
  }

  /** A status update keeps every line's products. */
  lemma {:induction false} UpdateLineStatusKeepsProducts(st: SyncState, lineId: string, status: string, ok: bool, now: int)
    ensures TotalProducts(UpdateLineStatus(st, lineId, status, ok, now).state.lines) == TotalProducts(st.lines)
  {
    var after := UpdateLineStatus(st, lineId, status, ok, now).state.lines;
    SameProductCounts(st.lines, after, |st.lines|);
    assert st.lines[..|st.lines|] == st.lines;
    assert after[..|after|] == after;
  }

  lemma {:induction false} SameProductCounts(a: seq<ProductionLine>, b: seq<ProductionLine>, k: nat)
    requires k <= |a| == |b|
    requires forall i :: 0 <= i < |a| ==> |a[i].products| == |b[i].products|
    ensures TotalProducts(a[..k]) == TotalProducts(b[..k])
    decreases k
  {
    if k > 0 {
      SameProductCounts(a, b, k - 1);
      assert a[..k][..k - 1] == a[..k - 1];
      assert b[..k][..k - 1] == b[..k - 1];
    }
  }

  datatype ProductStep = ProductStep(state: SyncState, returned: Option<Product>)

  /** `addProduct`: a created product is appended to the matching lines' products; `null` changes nothing. */
  function AddProduct(st: SyncState, lineId: string, created: Option<Product>): (r: ProductStep)
    ensures r.returned == created
    ensures created.None? ==> r.state == st
    ensures |r.state.lines| == |st.lines|
    ensures r.state.metrics == st.metrics && r.state.failures == st.failures
    ensures r.state.isLoading == st.isLoading && r.state.error == st.error
    ensures created.Some? ==> forall i :: 0 <= i < |st.lines| ==>
      var before := st.lines[i]; var after := r.state.lines[i];
      if before.id == lineId then after == before.(products := before.products + [created.value])
      else after == before
  {
    if created.None? then ProductStep(st, None)
    else
      var lines := seq(|st.lines|, i requires 0 <= i < |st.lines| =>
        if st.lines[i].id == lineId then st.lines[i].(products := st.lines[i].products + [created.value])
        else st.lines[i]);
      ProductStep(st.(lines := lines), created)
  }

  function TotalProducts(lines: seq<ProductionLine>): nat
    decreases |lines|
  {
    if |lines| == 0 then 0 else TotalProducts(lines[..|lines| - 1]) + |lines[|lines| - 1].products|
  }

  function CountWithId(lines: seq<ProductionLine>, id: string): nat
    decreases |lines|
  {
    if |lines| == 0 then 0 else CountWithId(lines[..|lines| - 1], id) + (if lines[|lines| - 1].id == id then 1 else 0)
  }

  /** Adding a product grows the product count by one per line carrying that id (so by one when ids are unique). */
  lemma AddProductCount(st: SyncState, lineId: string, p: Product)
    ensures TotalProducts(AddProduct(st, lineId, Some(p)).state.lines) == TotalProducts(st.lines) + CountWithId(st.lines, lineId)
  {
    var after := AddProduct(st, lineId, Some(p)).state.lines;
    AddProductCountPrefix(st.lines, after, lineId, |st.lines|);
    assert st.lines[..|st.lines|] == st.lines;
    assert after[..|after|] == after;
  }

  lemma {:induction false} AddProductCountPrefix(a: seq<ProductionLine>, b: seq<ProductionLine>, id: string, k: nat)
    requires k <= |a| == |b|
    requires forall i :: 0 <= i < |a| ==> |b[i].products| == |a[i].products| + (if a[i].id == id then 1 else 0)
    ensures TotalProducts(b[..k]) == TotalProducts(a[..k]) + CountWithId(a[..k], id)
    decreases k
  {
    if k > 0 {
      AddProductCountPrefix(a, b, id, k - 1);
      assert a[..k][..k - 1] == a[..k - 1];
      assert b[..k][..k - 1] == b[..k - 1];
    }
  }

  // ----- Failure patches -----

  datatype FailureStep = FailureStep(state: SyncState, returned: Option<FailureRecord>)

  /** `reportFailure`: a created failure is appended; `null` changes nothing. */
  function ReportFailure(st: SyncState, created: Option<FailureRecord>): (r: FailureStep)
    ensures r.returned == created
    ensures created.None? ==> r.state == st
    ensures created.Some? ==>
      |r.state.failures| == |st.failures| + 1 && r.state.failures[..|st.failures|] == st.failures
      && r.state.failures[|st.failures|] == created.value
    ensures r.state.lines == st.lines && r.state.metrics == st.metrics
    ensures r.state.isLoading == st.isLoading && r.state.error == st.error
  {
    if created.None? then FailureStep(st, None)
    else FailureStep(st.(failures := st.failures + [created.value]), created)
  }

  /** `resolveFailure`: on success the matching failures become resolved, ending now; nothing else changes. */
  function ResolveFailure(st: SyncState, failureId: string, ok: bool, now: int): (r: FlagStep)
    ensures r.success == ok
    ensures !ok ==> r.state == st
    ensures |r.state.failures| == |st.failures|
    ensures r.state.lines == st.lines && r.state.metrics == st.metrics
    ensures r.state.isLoading == st.isLoading && r.state.error == st.error
    ensures ok ==> forall i :: 0 <= i < |st.failures| ==>
      var before := st.failures[i]; var after := r.state.failures[i];
      if before.id == failureId then
        after.status == RESOLVED && after.endTime == Some(now)
        && after.(status := before.status, endTime := before.endTime) == before
      else after == before
  {
    if !ok then FlagStep(st, false)
    else
      var failures := seq(|st.failures|, i requires 0 <= i < |st.failures| =>
        if st.failures[i].id == failureId then st.failures[i].(status := RESOLVED, endTime := Some(now))
        else st.failures[i]);
      FlagStep(st.(failures := failures), true)
  }

  /** After a successful resolve no failure with that id is still open, and each keeps its recorded duration. */
  lemma ResolvedFailuresClosed(st: SyncState, failureId: string, now: int)
    ensures var r := ResolveFailure(st, failureId, true, now).state;
      forall i :: 0 <= i < |r.failures| && r.failures[i].id == failureId ==>
        r.failures[i].status != OPEN && r.failures[i].duration == st.failures[i].duration
  {
  }

  /** Resolving twice leaves every failure with the status one resolve gave it; only the end time moves. */
  lemma ResolveTwiceSameStatus(st: SyncState, failureId: string, now1: int, now2: int)
    ensures var once := ResolveFailure(st, failureId, true, now1).state;
      var twice := ResolveFailure(once, failureId, true, now2).state;
      |twice.failures| == |once.failures|
      && forall i :: 0 <= i < |once.failures| ==>
           twice.failures[i].status == once.failures[i].status
           && twice.failures[i].(endTime := once.failures[i].endTime) == once.failures[i]
  {
  }

  /** Reporting well-recorded failures and resolving failures keep every failure well recorded. */
  lemma FailurePatchesKeepRecords(st: SyncState, created: Option<FailureRecord>, failureId: string, ok: bool, now: int)
    requires forall f :: f in st.failures ==> WellRecorded(f)
    requires created.Some? ==> WellRecorded(created.value)
    ensures forall f :: f in ReportFailure(st, created).state.failures ==> WellRecorded(f)
    ensures forall f :: f in ResolveFailure(st, failureId, ok, now).state.failures ==> WellRecorded(f)
  {
    var r := ResolveFailure(st, failureId, ok, now).state;
    forall f | f in r.failures
      ensures WellRecorded(f)
    {
      var i :| 0 <= i < |r.failures| && r.failures[i] == f;
      assert st.failures[i] in st.failures;
    }
  }
}
