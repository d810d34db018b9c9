/**
 * `ProductAnalysisPanel` (components/product-analysis.tsx): the id field's
 * guard, the lookup that keeps the previous analysis when nothing is found,
 * the Analisar button's enabled state, and the figures the panel shows.
 * The lookup's answer and the hook's loading flag are inputs.
 */
module AnalysisPanel {
  import opened Wrappers
  import opened JsText
  import opened Durations
  import opened Analysis

  datatype PanelState = PanelState(productId: string, analysis: Option<ProductAnalysis>)

  /** Which toast `handleAnalyze` raises. */
  datatype Toast = InvalidId | Loaded | NotFoundToast

  /** The panel after a call, the id looked up (if any) and the toast shown. */
  datatype AnalyzeStep = AnalyzeStep(state: PanelState, request: Option<string>, toast: Toast)

  /**
   * `handleAnalyze`, given what the lookup resolves to: a blank id is
   * refused before any lookup; otherwise the untrimmed id is looked up and
   * only a found analysis replaces the one on screen.
   */
  function HandleAnalyze(st: PanelState, result: Option<ProductAnalysis>): (r: AnalyzeStep)
    ensures r.request.None? <==> AllWhitespace(st.productId)
    ensures r.request.Some? ==> r.request.value == st.productId
    ensures r.state.productId == st.productId
    ensures AllWhitespace(st.productId) ==> r.state == st && r.toast == InvalidId
    ensures !AllWhitespace(st.productId) && result.Some? ==> r.state.analysis == result && r.toast == Loaded
    ensures !AllWhitespace(st.productId) && result.None? ==> r.state == st && r.toast == NotFoundToast
  {
    if |Trim(st.productId)| == 0 then AnalyzeStep(st, None, InvalidId)
    else if result.Some? then AnalyzeStep(st.(analysis := result), Some(st.productId), Loaded)
    else AnalyzeStep(st, Some(st.productId), NotFoundToast)
  }

  /** `disabled={isLoading || !productId.trim()}`. */
  function AnalyzeDisabled(isLoading: bool, productId: string): (disabled: bool)
    ensures disabled <==> isLoading || AllWhitespace(productId)
  {
    isLoading || |Trim(productId)| == 0
  }

  /** Clicking an enabled button always looks the typed id up. */
  lemma EnabledButtonLooksUp(isLoading: bool, st: PanelState, result: Option<ProductAnalysis>)
    requires !AnalyzeDisabled(isLoading, st.productId)
    ensures HandleAnalyze(st, result).request == Some(st.productId)
  {
  }

  /**
   * The Enter key calls `handleAnalyze` without consulting the button: a
   * non-blank id is looked up even while the button is disabled for loading.
   */
  lemma EnterIgnoresLoading(st: PanelState, result: Option<ProductAnalysis>)
    requires !AllWhitespace(st.productId)
    ensures AnalyzeDisabled(true, st.productId)
    ensures HandleAnalyze(st, result).request.Some?
  {
  }

  // ----- A session of lookups -----

  /** The user types `id` and asks for its analysis, which resolves to `result`. */
  datatype Attempt = Attempt(id: string, result: Option<ProductAnalysis>)

  /** The panel after a sequence of attempts, in order. */
  function Session(st: PanelState, attempts: seq<Attempt>): PanelState
    decreases |attempts|
  {
    if |attempts| == 0 then st
    else
      var before := Session(st, attempts[..|attempts| - 1]);
      var a := attempts[|attempts| - 1];
      HandleAnalyze(before.(productId := a.id), a.result).state
  }

  /** An attempt that changes what the panel shows. */
  predicate Replaces(a: Attempt) {
    !AllWhitespace(a.id) && a.result.Some?
  }

  /** The panel shows the latest found analysis: later blank ids and misses do not clear it. */
  lemma {:induction false} SessionShowsLatestFound(st: PanelState, attempts: seq<Attempt>, i: nat)
    requires i < |attempts| && Replaces(attempts[i])
    requires forall j :: i < j < |attempts| ==> !Replaces(attempts[j])
    ensures Session(st, attempts).analysis == attempts[i].result
    decreases |attempts|
  {
    if i < |attempts| - 1 {
      SessionShowsLatestFound(st, attempts[..|attempts| - 1], i);
    }
  }

  /** A session in which nothing was found keeps the analysis it started with. */
  lemma {:induction false} SessionWithoutFindsKeepsAnalysis(st: PanelState, attempts: seq<Attempt>)
    requires forall j :: 0 <= j < |attempts| ==> !Replaces(attempts[j])
    ensures Session(st, attempts).analysis == st.analysis
    decreases |attempts|
  {
    if |attempts| > 0 {
      SessionWithoutFindsKeepsAnalysis(st, attempts[..|attempts| - 1]);
    }
  }

  // ----- What the panel shows -----

  /** The "Tempo Total de Ócio" card: the total idle seconds as a seconds-keeping duration. */
  function IdleTotalText(a: ProductAnalysis): string {
    FormatDurationWithSeconds(a.idleTotalSeconds * MS_PER_SECOND)
  }

  /** The card reads back as exactly the product's total idle time. */
  lemma IdleTotalReadsBack(a: ProductAnalysis)
    requires a.idleTotalSeconds >= 0
    ensures var segs := ParseSegments(IdleTotalText(a));
      segs.Some? && SegmentsMillis(segs.value) == a.idleTotalSeconds * MS_PER_SECOND
  {
    FormatDurationWithSecondsTruncates(a.idleTotalSeconds * MS_PER_SECOND);
    ModOfMultiplePlus(a.idleTotalSeconds, 0, MS_PER_SECOND);
  }

  datatype StageRow = StageRow(stageId: int, name: string, durationText: string, idleText: string)

  /** The stage table: one row per analysed stage, in the backend's order. */
  function StageRows(a: ProductAnalysis): (rows: seq<StageRow>)
    ensures |rows| == |a.stages|
    ensures forall i :: 0 <= i < |rows| ==> rows[i].stageId == a.stages[i].stageId && rows[i].name == a.stages[i].stageName
  {
    seq(|a.stages|, i requires 0 <= i < |a.stages| =>
      var s := a.stages[i];
      StageRow(s.stageId, s.stageName, FormatDurationWithSeconds(s.durationMs), FormatIdleTimeWithSeconds(s.idle)))
  }

  /**
   * Each row's duration reads back as its stage's duration to the second,
   * and its idle cell as the stage's idle seconds.
   */
  lemma StageRowReadsBack(a: ProductAnalysis, i: nat)
    requires i < |a.stages| && a.stages[i].durationMs >= 0
    ensures var segs := ParseSegments(StageRows(a)[i].durationText);
      segs.Some? && SegmentsMillis(segs.value) == a.stages[i].durationMs - a.stages[i].durationMs % MS_PER_SECOND
    ensures var idle := a.stages[i].idle;
      idle.Fields? && IdleSeconds(idle) >= 0 ==>
        var segs := ParseSegments(StageRows(a)[i].idleText);
        segs.Some? && SegmentsMillis(segs.value) == IdleSeconds(idle) * MS_PER_SECOND
  {
    FormatDurationWithSecondsTruncates(a.stages[i].durationMs);
  }
}
