/**
 * `useRealProductData().fetchProductAnalysis` (hooks/use-real-data.ts): a
 * per-hook memo of product analyses keyed by product id. A hit answers from
 * the memo without fetching; a miss fetches, and only a found analysis is
 * stored. The network's answer is an input.
 */
module AnalysisCache {
  import opened Wrappers
  import opened Analysis

  /** How `ProductionAPI.getProductAnalysis` settled: an analysis, `null`, or a thrown error. */
  datatype FetchOutcome = Found(analysis: ProductAnalysis) | NotFound | Failed

  datatype CacheState = CacheState(entries: map<string, ProductAnalysis>, isLoading: bool)

  /** The state after a call, what the call resolved to, and whether it reached the network. */
  datatype CacheStep = CacheStep(state: CacheState, returned: Option<ProductAnalysis>, fetched: bool)

  function FetchProductAnalysis(st: CacheState, productId: string, outcome: FetchOutcome): (r: CacheStep)
    ensures productId in st.entries ==> r == CacheStep(st, Some(st.entries[productId]), false)
    ensures productId !in st.entries ==> r.fetched && !r.state.isLoading
    ensures productId !in st.entries ==>
      r.returned == (if outcome.Found? then Some(outcome.analysis) else None)
    ensures productId !in st.entries ==>
      r.state.entries == (if outcome.Found? then st.entries[productId := outcome.analysis] else st.entries)
  {
    if productId in st.entries then CacheStep(st, Some(st.entries[productId]), false)
    else
      match outcome
      case Found(a) => CacheStep(CacheState(st.entries[productId := a], false), Some(a), true)
      case _ => CacheStep(CacheState(st.entries, false), None, true)
  }

  /** A call stores under its own key at most; every other key keeps its presence and value. */
  lemma OtherKeysUntouched(st: CacheState, productId: string, outcome: FetchOutcome, k: string)
    requires k != productId
    ensures var e := FetchProductAnalysis(st, productId, outcome).state.entries;
      (k in e <==> k in st.entries) && (k in e ==> e[k] == st.entries[k])
  {
  }

  /** On a hit the network's answer is irrelevant: no fetch is made. */
  lemma HitIgnoresNetwork(st: CacheState, productId: string, o1: FetchOutcome, o2: FetchOutcome)
    requires productId in st.entries
    ensures FetchProductAnalysis(st, productId, o1) == FetchProductAnalysis(st, productId, o2)
  {
  }

  datatype Call = Call(productId: string, outcome: FetchOutcome)

  /** The memo after a sequence of calls, in order. */
  function Run(st: CacheState, calls: seq<Call>): CacheState
    decreases |calls|
  {
    if |calls| == 0 then st
    else
      var before := Run(st, calls[..|calls| - 1]);
      var c := calls[|calls| - 1];
      FetchProductAnalysis(before, c.productId, c.outcome).state
  }

  /** Nothing is ever evicted or overwritten: a cached entry survives every later call unchanged. */
  lemma {:induction false} CachedEntryIsStable(st: CacheState, calls: seq<Call>, k: string)
    requires k in st.entries
    ensures k in Run(st, calls).entries && Run(st, calls).entries[k] == st.entries[k]
    decreases |calls|
  {
    if |calls| > 0 {
      CachedEntryIsStable(st, calls[..|calls| - 1], k);
    }
  }

  /** Once a product's analysis is cached, every later call for it answers that same analysis without fetching. */
  lemma CachedKeyAnswersForever(st: CacheState, calls: seq<Call>, i: nat, k: string)
    requires k in st.entries
    requires i < |calls| && calls[i].productId == k
    ensures var r := FetchProductAnalysis(Run(st, calls[..i]), k, calls[i].outcome);
      r.returned == Some(st.entries[k]) && !r.fetched
  {
    CachedEntryIsStable(st, calls[..i], k);
  }

  /** The memo's keys only grow. */
  lemma {:induction false} KeysOnlyGrow(st: CacheState, calls: seq<Call>)
    ensures st.entries.Keys <= Run(st, calls).entries.Keys
    decreases |calls|
  {
    if |calls| > 0 {
      KeysOnlyGrow(st, calls[..|calls| - 1]);
    }
  }
}
