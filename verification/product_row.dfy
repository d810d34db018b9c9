/**
 * `EnhancedProductRow` (components/enhanced-product-row.tsx): the stage
 * cells, what the row shows for finished and unfinished products, the
 * "→ next" suffix, and the "Ver Dados Reais" toggle that fetches the
 * product's analysis through the row's own memo.
 */
module ProductRow {
  import opened Wrappers
  import opened JsText
  import opened Analysis
  import opened DashboardPage
  import AnalysisCache

  // ----- Stage cells -----

  datatype StageCell = StageCell(status: StageStatus, color: string, time: TimestampText)

  /** One cell per entry of `stageTimes`; cell `i` is stage `i + 1`. */
  function StageCells(p: PageProduct): (cells: seq<StageCell>)
    ensures |cells| == |p.stageTimes|
    ensures forall i :: 0 <= i < |cells| ==>
      cells[i].status == GetStageStatus(p.currentStage, i + 1) && cells[i].color == GetStageColor(cells[i].status)
    ensures forall i :: 0 <= i < |cells| ==> (cells[i].time == Dash <==> p.stageTimes[i] == 0)
  {
    seq(|p.stageTimes|, i requires 0 <= i < |p.stageTimes| =>
      var st := GetStageStatus(p.currentStage, i + 1);
      StageCell(st, GetStageColor(st), FormatTimestamp(p.stageTimes[i])))
  }

  function CountStatus(cells: seq<StageCell>, s: StageStatus): nat
    decreases |cells|
  {
    if |cells| == 0 then 0
    else CountStatus(cells[..|cells| - 1], s) + (if cells[|cells| - 1].status == s then 1 else 0)
  }

  function Clamp(x: int, lo: int, hi: int): int {
    if x < lo then lo else if x > hi then hi else x
  }

  /**
   * The row of cells reads as a progress bar: the stages before the
   * current one are completed, the current stage (when it has a cell) is
   * the only "current" one, and the rest are pending.
   */
  lemma StageCellCounts(p: PageProduct)
    ensures var cells := StageCells(p); var n := |cells|;
      && CountStatus(cells, Completed) == Clamp(p.currentStage - 1, 0, n)
      && CountStatus(cells, Current) == (if 1 <= p.currentStage <= n then 1 else 0)
      && CountStatus(cells, Pending) == n - Clamp(p.currentStage, 0, n)
  {
    var cells := StageCells(p);
    PrefixCounts(cells, p.currentStage, |cells|);
    assert cells[..|cells|] == cells;
  }

  lemma {:induction false} PrefixCounts(cells: seq<StageCell>, cur: int, k: nat)
    requires k <= |cells|
    requires forall i :: 0 <= i < |cells| ==> cells[i].status == GetStageStatus(cur, i + 1)
    ensures CountStatus(cells[..k], Completed) == Clamp(cur - 1, 0, k)
    ensures CountStatus(cells[..k], Current) == (if 1 <= cur <= k then 1 else 0)
    ensures CountStatus(cells[..k], Pending) == k - Clamp(cur, 0, k)
    decreases k
  {
    if k > 0 {
      PrefixCounts(cells, cur, k - 1);
      assert cells[..k][..k - 1] == cells[..k - 1];
      assert cells[..k][k - 1] == cells[k - 1];
    }
  }

  /** For the page's five-stage products: a product at stage 5 has stages 1-4 completed and stage 5 current. */
  lemma FinishedProductCells(p: PageProduct)
    requires |p.stageTimes| == 5 && p.currentStage == 5
    ensures var cells := StageCells(p);
      (forall i :: 0 <= i < 4 ==> cells[i].status == Completed) && cells[4].status == Current
  {
  }

  // ----- Row display -----

  const FINISHED_BADGE: string := "Concluído"
  const IN_PRODUCTION_BADGE: string := "Em Produção"

  /** What the row shows outside the stage cells: `badge` is the status badge, `stageBadge` the "Etapa" badge's text. */
  datatype RowView = RowView(identityShown: bool, barcodeShown: bool, badge: string, stageBadge: string)

  const STAGE_PREFIX: string := "Etapa "
  const ARROW: string := "→"

  /** What React renders after "Etapa {currentStage}". */
  datatype NextStageShown = Hidden | BareZero | Arrow(stage: int)

  /**
   * `{product.nextStage && (<>→{product.nextStage}</>)}`: null renders
   * nothing; 0 is falsy, so the `&&` yields the number 0, which React prints;
   * any other stage gets the arrow and the number.
   */
  function NextStageSuffix(nextStage: Option<int>): (r: NextStageShown)
    ensures r.Hidden? <==> nextStage.None?
    ensures r.BareZero? <==> nextStage == Some(0)
    ensures r.Arrow? <==> nextStage.Some? && nextStage.value != 0
    ensures r.Arrow? ==> nextStage == Some(r.stage)
  {
    match nextStage
    case None => Hidden
    case Some(n) => if n == 0 then BareZero else Arrow(n)
  }

  function SuffixText(s: NextStageShown): string {
    match s
    case Hidden => ""
    case BareZero => "0"
    case Arrow(n) => ARROW + ShowInt(n)
  }

  /** The text of the "Etapa" badge as rendered; the arrow's margin is styling and adds no text. */
  function StageBadgeText(current: int, nextStage: Option<int>): (t: string)
    ensures |t| > |STAGE_PREFIX| && t[..|STAGE_PREFIX|] == STAGE_PREFIX
  {
    STAGE_PREFIX + ShowInt(current) + SuffixText(NextStageSuffix(nextStage))
  }

  /** The stage a reader takes from the badge: `parseInt` of what follows "Etapa ". */
  function BadgeStage(t: string): Option<int> {
    if |t| >= |STAGE_PREFIX| && t[..|STAGE_PREFIX|] == STAGE_PREFIX then ParseInt(t[|STAGE_PREFIX|..]) else None
  }

  /** Unless the next stage is 0, the badge reads as the current stage, whatever follows it. */
  lemma BadgeShowsItsStage(current: int, nextStage: Option<int>)
    requires -MAX_SAFE_INTEGER <= current <= MAX_SAFE_INTEGER
    requires nextStage != Some(0)
    ensures BadgeStage(StageBadgeText(current, nextStage)) == Some(current)
  {
    SuffixStartsWithNonDigit(NextStageSuffix(nextStage));
    BadgeReadsStage(current, SuffixText(NextStageSuffix(nextStage)));
  }

  lemma BadgeReadsStage(current: int, suffix: string)
    requires -MAX_SAFE_INTEGER <= current <= MAX_SAFE_INTEGER
    requires |suffix| == 0 || !IsDigit(suffix[0])
    ensures BadgeStage(STAGE_PREFIX + ShowInt(current) + suffix) == Some(current)
  {
    var rest := ShowInt(current) + suffix;
    assert STAGE_PREFIX + ShowInt(current) + suffix == STAGE_PREFIX + rest;
    assert (STAGE_PREFIX + rest)[..|STAGE_PREFIX|] == STAGE_PREFIX;
    assert (STAGE_PREFIX + rest)[|STAGE_PREFIX|..] == rest;
    ParseIntOfShowInt(current, suffix);
  }

  lemma SuffixStartsWithNonDigit(s: NextStageShown)
    requires !s.BareZero?
    ensures |SuffixText(s)| == 0 || !IsDigit(SuffixText(s)[0])
  {
    if s.Arrow? {
      assert SuffixText(s)[0] == ARROW[0];
    }
  }

  /**
   * A next stage of 0 puts a bare "0" right after the current stage, so the
   * badge of stage `c` is the badge of stage `10c` with no next stage.
   */
  lemma StrayZeroShiftsStage(current: int)
    requires 1 <= current && current * 10 <= MAX_SAFE_INTEGER
    ensures StageBadgeText(current, Some(0)) == StageBadgeText(current * 10, None)
    ensures BadgeStage(StageBadgeText(current, Some(0))) == Some(current * 10)
  {
    ShowIntTimesTen(current);
    assert STAGE_PREFIX + ShowInt(current) + "0" == STAGE_PREFIX + ShowInt(current * 10) + "";
    BadgeShowsItsStage(current * 10, None);
  }

  lemma ShowIntTimesTen(c: int)
    requires c >= 1
    ensures ShowInt(c * 10) == ShowInt(c) + "0"
  {
    var n := c * 10;
    assert n >= 10 && n / 10 == c && n % 10 == 0;
    assert ShowNat(n) == ShowNat(n / 10) + [DigitChar(n % 10)];
  }

  /** The evidently intended badge: a next stage of 0, like null, shows nothing after the current stage. */
  function GuardedStageBadgeText(current: int, nextStage: Option<int>): (t: string)
    ensures nextStage != Some(0) ==> t == StageBadgeText(current, nextStage)
    ensures -MAX_SAFE_INTEGER <= current <= MAX_SAFE_INTEGER ==> BadgeStage(t) == Some(current)
  {
    var shown := if nextStage == Some(0) then None else nextStage;
    if -MAX_SAFE_INTEGER <= current <= MAX_SAFE_INTEGER then
      BadgeShowsItsStage(current, shown);
      StageBadgeText(current, shown)
    else
      StageBadgeText(current, shown)
  }

  function ViewRow(p: PageProduct): (v: RowView)
    ensures v.identityShown <==> p.currentStage == 5
    ensures v.barcodeShown <==> p.currentStage == 5 && p.barcode != ""
    ensures v.badge == FINISHED_BADGE <==> p.currentStage == 5
    ensures v.badge == FINISHED_BADGE || v.badge == IN_PRODUCTION_BADGE
    ensures v.stageBadge == StageBadgeText(p.currentStage, p.nextStage)
    ensures -MAX_SAFE_INTEGER <= p.currentStage <= MAX_SAFE_INTEGER && p.nextStage != Some(0) ==>
      BadgeStage(v.stageBadge) == Some(p.currentStage)
  {
    var finished := p.currentStage == 5;
    var v := RowView(finished, finished && p.barcode != "", if finished then FINISHED_BADGE else IN_PRODUCTION_BADGE,
                     StageBadgeText(p.currentStage, p.nextStage));
    if -MAX_SAFE_INTEGER <= p.currentStage <= MAX_SAFE_INTEGER && p.nextStage != Some(0) then
      BadgeShowsItsStage(p.currentStage, p.nextStage);
      v
    else
      v
  }

  function CountBadge(ps: seq<PageProduct>, badge: string): nat
    decreases |ps|
  {
    if |ps| == 0 then 0 else (if ViewRow(ps[0]).badge == badge then 1 else 0) + CountBadge(ps[1..], badge)
  }

  /**
   * The rows agree with the line card: as many rows say "Concluído" as the
   * card counts finished, and the "Em Produção" rows are the card's
   * in-production products plus any past stage 5.
   */
  lemma {:induction false} RowsAgreeWithLineCard(ps: seq<PageProduct>)
    ensures CountBadge(ps, FINISHED_BADGE) == CompletedCount(ps)
    ensures CountBadge(ps, IN_PRODUCTION_BADGE) == InProductionCount(ps) + BeyondLastStageCount(ps)
    decreases |ps|
  {
    if |ps| > 0 {
      RowsAgreeWithLineCard(ps[1..]);
    }
  }

  // ----- "Ver Dados Reais" -----

  datatype RowState = RowState(showRealData: bool, realData: Option<ProductAnalysis>)

  datatype ToggleStep = ToggleStep(state: RowState, fetched: bool)

  /** `handleShowRealData`, given what the fetch would resolve to: fetch only while nothing is held, then flip visibility. */
  function HandleShowRealData(st: RowState, fetchResult: Option<ProductAnalysis>): (r: ToggleStep)
    ensures r.fetched <==> st.realData.None?
    ensures r.state.showRealData == !st.showRealData
    ensures r.state.realData == if st.realData.None? then fetchResult else st.realData
  {
    if st.realData.None? then ToggleStep(RowState(!st.showRealData, fetchResult), true)
    else ToggleStep(RowState(!st.showRealData, st.realData), false)
  }

  /** The expanded row with the backend's data. */
  predicate DetailRowShown(st: RowState) {
    st.showRealData && st.realData.Some?
  }

  /** The expanded "not found" row. */
  predicate NotFoundRowShown(st: RowState) {
    st.showRealData && st.realData.None?
  }

  /** Exactly one expanded row while visible, none while hidden. */
  lemma ExpandedRowsExclusive(st: RowState)
    ensures !(DetailRowShown(st) && NotFoundRowShown(st))
    ensures DetailRowShown(st) || NotFoundRowShown(st) <==> st.showRealData
  {
  }

  /** Two clicks restore visibility; once data is held the second click does not fetch. */
  lemma TwoClicksRestoreVisibility(st: RowState, first: Option<ProductAnalysis>, second: Option<ProductAnalysis>)
    ensures var s1 := HandleShowRealData(st, first);
      var s2 := HandleShowRealData(s1.state, second);
      && s2.state.showRealData == st.showRealData
      && (s1.state.realData.Some? ==> !s2.fetched && s2.state.realData == s1.state.realData)
  {
  }

  // ----- The toggle through the row's memo -----

  /** A row and its own `useRealProductData` memo. */
  datatype RowWithMemo = RowWithMemo(row: RowState, memo: AnalysisCache.CacheState)

  /** A click: the row asks its memo for its serial number's analysis, which may reach the network. */
  function Click(s: RowWithMemo, serial: string, outcome: AnalysisCache.FetchOutcome): (r: RowWithMemo)
    ensures r.row.showRealData == !s.row.showRealData
  {
    if s.row.realData.None? then
      var step := AnalysisCache.FetchProductAnalysis(s.memo, serial, outcome);
      RowWithMemo(HandleShowRealData(s.row, step.returned).state, step.state)
    else RowWithMemo(HandleShowRealData(s.row, None).state, s.memo)
  }

  /** The row holds data exactly when its memo holds its serial number, and the memo holds nothing else. */
  ghost predicate MemoMirrorsRow(s: RowWithMemo, serial: string) {
    && s.memo.entries.Keys <= {serial}
    && (s.row.realData.Some? <==> serial in s.memo.entries)
    && (serial in s.memo.entries ==> s.row.realData == Some(s.memo.entries[serial]))
  }

  /**
   * Clicking keeps the row and its memo in step; so the row only fetches
   * while the memo misses, and the memo never answers a click from a hit.
   */
  lemma ClickKeepsMemoInStep(s: RowWithMemo, serial: string, outcome: AnalysisCache.FetchOutcome)
    requires MemoMirrorsRow(s, serial)
    ensures MemoMirrorsRow(Click(s, serial, outcome), serial)
    ensures s.row.realData.None? ==> AnalysisCache.FetchProductAnalysis(s.memo, serial, outcome).fetched
  {
  }
}
