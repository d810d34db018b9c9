/**
 * The view-model logic of the monitoring page (app/page.tsx): stage
 * classification, timestamps, downtime per line, the failure table's order,
 * daily-goal validation and saving, and the line cards' counts and totals.
 */
module DashboardPage {
  import opened Wrappers
  import opened JsText
  import opened Durations

  // ----- Stage classification -----

  datatype StageStatus = Completed | Current | Pending

  /** `getStageStatus`: a stage is behind, at, or ahead of the product's current stage. */
  function GetStageStatus(currentStage: int, stage: int): (r: StageStatus)
    ensures r == Completed <==> stage < currentStage
    ensures r == Current <==> stage == currentStage
    ensures r == Pending <==> stage > currentStage
  {
    if stage < currentStage then Completed
    else if stage == currentStage then Current
    else Pending
  }

  /** `getStageColor`; "pending" reaches the `default` branch. */
  function GetStageColor(status: StageStatus): string {
    match status
    case Completed => "bg-green-500"
    case Current => "bg-blue-500"
    case Pending => "bg-gray-300"
  }

  /** The three classes get three different colours, so the colour tells the class. */
  lemma StageColorsDistinct(a: StageStatus, b: StageStatus)
    ensures GetStageColor(a) == GetStageColor(b) <==> a == b
  {
  }

  /** How far along a class is: stages further on are never further along. */
  function StageRank(s: StageStatus): nat {
    match s
    case Completed => 2
    case Current => 1
    case Pending => 0
  }

  lemma StageStatusMonotone(currentStage: int, s1: int, s2: int)
    requires s1 <= s2
    ensures StageRank(GetStageStatus(currentStage, s1)) >= StageRank(GetStageStatus(currentStage, s2))
  {
  }

  // ----- Timestamps -----

  /** `formatTimestamp`: zero prints "-", anything else goes to locale formatting (not modelled). */
  datatype TimestampText = Dash | Localised(epochMs: int)

  function FormatTimestamp(timestamp: int): (r: TimestampText)
    ensures r == Dash <==> timestamp == 0
    ensures r.Localised? ==> r.epochMs == timestamp
  {
    if timestamp == 0 then Dash else Localised(timestamp)
  }

  // ----- Failures and downtime -----

  /** A row of the page's failure list. */
  datatype PageFailure = PageFailure(
    id: int, line: string, stage: int, startTime: int, endTime: Option<int>, duration: int, status: string)

  const CONCLUDED: string := "Concluído"
  const OPEN: string := "Aberto"

  /** The five keys `getDowntimeByLine` starts from, each at zero. */
  const LINE_KEYS: seq<string> := ["Linha 1", "Linha 2", "Linha 3", "Linha 4", "Linha 5"]

  /** A JavaScript number as the downtime map holds it: `undefined + n` is NaN. */
  datatype DowntimeTotal = Ms(value: int) | NotANumber

  /** What one failure adds: its stored duration once concluded, else the time elapsed since it began. */
  function Contribution(f: PageFailure, now: int): int {
    if f.status == CONCLUDED then f.duration else now - f.startTime
  }

  /** Reference total for one line: the sum of its failures' contributions. */
  function LineDowntime(fs: seq<PageFailure>, line: string, now: int): int
    decreases |fs|
  {
    if |fs| == 0 then 0
    else LineDowntime(fs[..|fs| - 1], line, now) + (if fs[|fs| - 1].line == line then Contribution(fs[|fs| - 1], now) else 0)
  }

  function LinesOf(fs: seq<PageFailure>): set<string> {
    set i | 0 <= i < |fs| :: fs[i].line
  }

  function InitialDowntime(): map<string, DowntimeTotal> {
    map k | k in LINE_KEYS :: Ms(0)
  }

  /** `downtime[f.line] += c`: a key the map lacks reads `undefined`, and `undefined + c` is NaN. */
  function AddToLine(acc: map<string, DowntimeTotal>, line: string, c: int): map<string, DowntimeTotal> {
    acc[line := if line in acc && acc[line].Ms? then Ms(acc[line].value + c) else NotANumber]
  }

  /** What the downtime map holds after the failures `fs`. */
  ghost predicate DowntimeAfter(r: map<string, DowntimeTotal>, fs: seq<PageFailure>, now: int) {
    && (forall k :: k in r <==> k in LINE_KEYS || k in LinesOf(fs))
    && (forall k :: k in LINE_KEYS ==> r[k] == Ms(LineDowntime(fs, k, now)))
    && (forall k :: k in r && k !in LINE_KEYS ==> r[k] == NotANumber)
  }

  /**
   * `getDowntimeByLine`: the `forEach` over the failures, in order, adding
   * each contribution to its line's entry. Each of the five lines ends with
   * the sum of its failures' contributions; a line outside the five keys
   * gets an entry too, and it is NaN.
   */
  function GetDowntimeByLine(fs: seq<PageFailure>, now: int): (r: map<string, DowntimeTotal>)
    ensures DowntimeAfter(r, fs, now)
    decreases |fs|
  {
    if |fs| == 0 then InitialDowntime()
    else
      var acc := GetDowntimeByLine(fs[..|fs| - 1], now);
      var f := fs[|fs| - 1];
      DowntimeStep(acc, fs, now);
      AddToLine(acc, f.line, Contribution(f, now))
  }

  lemma DowntimeStep(acc: map<string, DowntimeTotal>, fs: seq<PageFailure>, now: int)
    requires |fs| > 0 && DowntimeAfter(acc, fs[..|fs| - 1], now)
    ensures DowntimeAfter(AddToLine(acc, fs[|fs| - 1].line, Contribution(fs[|fs| - 1], now)), fs, now)
  {
    var p, f := fs[..|fs| - 1], fs[|fs| - 1];
    var r := AddToLine(acc, f.line, Contribution(f, now));
    assert LinesOf(fs) == LinesOf(p) + {f.line} by {
      assert forall i :: 0 <= i < |p| ==> p[i] == fs[i];
      assert fs[|fs| - 1] == f;
    }
    forall k | k in LINE_KEYS
      ensures r[k] == Ms(LineDowntime(fs, k, now))
    {
      assert LineDowntime(fs, k, now) == LineDowntime(p, k, now) + (if f.line == k then Contribution(f, now) else 0);
    }
  }

  /** A line none of whose failures is listed keeps its zero. */
  lemma QuietLineStaysZero(fs: seq<PageFailure>, line: string, now: int)
    requires line in LINE_KEYS && line !in LinesOf(fs)
    ensures GetDowntimeByLine(fs, now)[line] == Ms(0)
  {
    NoFailuresNoDowntime(fs, line, now);
  }

  lemma {:induction false} NoFailuresNoDowntime(fs: seq<PageFailure>, line: string, now: int)
    requires line !in LinesOf(fs)
    ensures LineDowntime(fs, line, now) == 0
    decreases |fs|
  {
    if |fs| > 0 {
      assert fs[|fs| - 1].line in LinesOf(fs);
      assert LinesOf(fs[..|fs| - 1]) <= LinesOf(fs) by {
        forall x | x in LinesOf(fs[..|fs| - 1]) ensures x in LinesOf(fs) {
          var i :| 0 <= i < |fs| - 1 && fs[..|fs| - 1][i].line == x;
          assert fs[i].line == x;
        }
      }
      NoFailuresNoDowntime(fs[..|fs| - 1], line, now);
    }
  }

  /** The "Duração" cell of the failure table: open failures count up to `now`, others show the stored duration. */
  function FailureDurationText(f: PageFailure, now: int): string {
    if f.status == OPEN then FormatDuration(now - f.startTime) else FormatDuration(f.duration)
  }

  /** The "Fim" cell: a missing or zero end time prints "-". */
  function FailureEndText(f: PageFailure): (r: TimestampText)
    ensures r == Dash <==> f.endTime.None? || f.endTime.value == 0
  {
    if f.endTime.Some? && f.endTime.value != 0 then FormatTimestamp(f.endTime.value) else Dash
  }

  /** For the two statuses the page uses, the table shows exactly what the downtime card adds up. */
  lemma TableMatchesDowntime(f: PageFailure, now: int)
    requires f.status == CONCLUDED || f.status == OPEN
    ensures FailureDurationText(f, now) == FormatDuration(Contribution(f, now))
  {
  }

  /** Any other status is counted as still running by the card but shown as stored by the table. */
  lemma OtherStatusesDisagree(f: PageFailure, now: int)
    requires f.status != CONCLUDED && f.status != OPEN
    ensures Contribution(f, now) == now - f.startTime
    ensures FailureDurationText(f, now) == FormatDuration(f.duration)
  {
  }

  // ----- Failure table order -----

  ghost predicate SortedByStartDesc(fs: seq<PageFailure>) {
    forall i, j :: 0 <= i < j < |fs| ==> fs[i].startTime >= fs[j].startTime
  }

  /** The failures that started at `t`, in list order. */
  function WithStart(fs: seq<PageFailure>, t: int): seq<PageFailure>
    decreases |fs|
  {
    if |fs| == 0 then [] else (if fs[0].startTime == t then [fs[0]] else []) + WithStart(fs[1..], t)
  }

  lemma WithStartCons(f: PageFailure, fs: seq<PageFailure>, t: int)
    ensures WithStart([f] + fs, t) == (if f.startTime == t then [f] else []) + WithStart(fs, t)
  {
    assert ([f] + fs)[1..] == fs;
  }

  /** Places `f` in front of the first entry that did not start later than it. */
  function InsertByStart(f: PageFailure, s: seq<PageFailure>): (r: seq<PageFailure>)
    requires SortedByStartDesc(s)
    ensures SortedByStartDesc(r)
    ensures multiset(r) == multiset(s) + multiset{f}
    decreases |s|
  {
    if |s| == 0 || s[0].startTime <= f.startTime then [f] + s
    else
      assert s == [s[0]] + s[1..];
      var rest := InsertByStart(f, s[1..]);
      StartsAtMostFromMultiset(rest, s[1..], f, s[0].startTime);
      ConsKeepsSorted(s[0], rest);
      [s[0]] + rest
  }

  ghost predicate StartsAtMost(s: seq<PageFailure>, bound: int) {
    forall i :: 0 <= i < |s| ==> s[i].startTime <= bound
  }

  /** A permutation of `s` plus `f` starts no later than a bound both respect. */
  lemma StartsAtMostFromMultiset(r: seq<PageFailure>, s: seq<PageFailure>, f: PageFailure, bound: int)
    requires multiset(r) == multiset(s) + multiset{f}
    requires StartsAtMost(s, bound) && f.startTime <= bound
    ensures StartsAtMost(r, bound)
  {
    forall i | 0 <= i < |r|
      ensures r[i].startTime <= bound
    {
      assert r[i] in multiset(r);
      if r[i] != f {
        assert r[i] in multiset(s);
        var j :| 0 <= j < |s| && s[j] == r[i];
      }
    }
  }

  lemma ConsKeepsSorted(h: PageFailure, rest: seq<PageFailure>)
    requires SortedByStartDesc(rest) && StartsAtMost(rest, h.startTime)
    ensures SortedByStartDesc([h] + rest)
  {
    var r := [h] + rest;
    forall i, j | 0 <= i < j < |r|
      ensures r[i].startTime >= r[j].startTime
    {
      assert r[j] == rest[j - 1];
      if i > 0 {
        assert r[i] == rest[i - 1];
      }
    }
  }

  /** Among failures that started together, the inserted one comes first: it was first in the list. */
  lemma {:induction false} InsertByStartStable(f: PageFailure, s: seq<PageFailure>, t: int)
    requires SortedByStartDesc(s)
    ensures WithStart(InsertByStart(f, s), t) == (if f.startTime == t then [f] else []) + WithStart(s, t)
    decreases |s|
  {
    if |s| == 0 || s[0].startTime <= f.startTime {
      assert InsertByStart(f, s) == [f] + s;
      WithStartCons(f, s, t);
    } else {
      var rest := InsertByStart(f, s[1..]);
      assert InsertByStart(f, s) == [s[0]] + rest;
      InsertByStartStable(f, s[1..], t);
      WithStartCons(s[0], rest, t);
      assert s == [s[0]] + s[1..];
      WithStartCons(s[0], s[1..], t);
      var w := WithStart(s[1..], t);
      if f.startTime == t {
        assert s[0].startTime != t;
        assert WithStart(s, t) == w;
        assert WithStart([s[0]] + rest, t) == [f] + w;
      } else {
        assert WithStart(rest, t) == w;
      }
    }
  }

  /**
   * `failureData.sort((a, b) => b.startTime - a.startTime)`: newest first,
   * and, as JavaScript's sort is stable, failures that started at the same
   * time keep their list order.
   */
  function SortByStartDescending(fs: seq<PageFailure>): (r: seq<PageFailure>)
    ensures SortedByStartDesc(r)
    ensures multiset(r) == multiset(fs)
    decreases |fs|
  {
    if |fs| == 0 then []
    else
      assert fs == [fs[0]] + fs[1..];
      InsertByStart(fs[0], SortByStartDescending(fs[1..]))
  }

  /** The sort is stable: the failures of any one start time appear in their original order. */
  lemma {:induction false} SortByStartDescendingStable(fs: seq<PageFailure>, t: int)
    ensures WithStart(SortByStartDescending(fs), t) == WithStart(fs, t)
    decreases |fs|
  {
    if |fs| > 0 {
      SortByStartDescendingStable(fs[1..], t);
      InsertByStartStable(fs[0], SortByStartDescending(fs[1..]), t);
      WithStartCons(fs[0], fs[1..], t);
      assert fs == [fs[0]] + fs[1..];
    }
  }

  /** Sorting an already ordered table changes nothing, so re-sorting on every render is harmless. */
  lemma {:induction false} SortKeepsSortedTable(fs: seq<PageFailure>)
    requires SortedByStartDesc(fs)
    ensures SortByStartDescending(fs) == fs
    decreases |fs|
  {
    if |fs| > 0 {
      SortKeepsSortedTable(fs[1..]);
      assert fs == [fs[0]] + fs[1..];
    }
  }

  lemma SortIsIdempotent(fs: seq<PageFailure>)
    ensures SortByStartDescending(SortByStartDescending(fs)) == SortByStartDescending(fs)
  {
    SortKeepsSortedTable(SortByStartDescending(fs));
  }

  // ----- Daily goal -----

  datatype GoalCheck = Blank | NotPositive | Valid(goal: int)

  /**
   * The two guards of `handleSaveDailyGoal`: a missing, empty or
   * white-space-only entry is blank; otherwise `parseInt(value, 10)` must
   * be a number above zero.
   */
  function ValidateGoal(input: Option<string>): (r: GoalCheck)
    ensures r == Blank <==> input.None? || AllWhitespace(input.value)
    ensures r.Valid? ==> r.goal > 0 && ParseInt(input.value) == Some(r.goal)
    ensures r == NotPositive <==>
      input.Some? && !AllWhitespace(input.value) && (ParseInt(input.value).None? || ParseInt(input.value).value <= 0)
  {
    if input.None? || input.value == "" || Trim(input.value) == "" then Blank
    else
      match ParseInt(input.value)
      case None => NotPositive
      case Some(n) => if n <= 0 then NotPositive else Valid(n)
  }

  /**
   * A safe integer typed after any white space is read as that number, whatever
   * non-digit text follows it: accepted when positive, refused otherwise.
   */
  lemma TypedGoalIsRead(n: int, lead: string, trail: string)
    requires -MAX_SAFE_INTEGER <= n <= MAX_SAFE_INTEGER
    requires AllWhitespace(lead)
    requires |trail| == 0 || !IsDigit(trail[0])
    ensures ValidateGoal(Some(lead + ShowInt(n) + trail)) == if n > 0 then Valid(n) else NotPositive
  {
    var x := ShowInt(n) + trail;
    assert lead + ShowInt(n) + trail == lead + x;
    ParseIntSkipsLeadingWhitespace(lead, x);
    ParseIntOfShowInt(n, trail);
    assert x[0] == ShowInt(n)[0];
    NumberIsNotBlank(lead, x);
    ParsedGoal(lead + x, n);
  }

  lemma NumberIsNotBlank(lead: string, x: string)
    requires |x| > 0 && !IsWhitespace(x[0])
    ensures !AllWhitespace(lead + x)
  {
    assert (lead + x)[|lead|] == x[0];
  }

  lemma ParsedGoal(s: string, n: int)
    requires ParseInt(s) == Some(n) && !AllWhitespace(s)
    ensures ValidateGoal(Some(s)) == if n > 0 then Valid(n) else NotPositive
  {
  }

  /** An entry whose first visible character is neither a digit nor a sign does not parse, and is refused. */
  lemma UnparsableGoalRefused(s: string)
    requires |TrimStart(s)| > 0
    requires var c := TrimStart(s)[0]; !IsDigit(c) && c != '-' && c != '+'
    ensures ValidateGoal(Some(s)) == NotPositive
  {
    var t := TrimStart(s);
    assert DigitRun(t) == 0;
    assert ParseInt(s).None?;
    assert !AllWhitespace(s) by {
      assert s[|s| - |t|] == t[0];
    }
  }

  /** Blank entries are refused before any parsing. */
  lemma BlankGoals(w: string)
    requires AllWhitespace(w)
    ensures ValidateGoal(Some(w)) == Blank
    ensures ValidateGoal(None) == Blank
  {
  }

  /** What the API call in `handleSaveDailyGoal` ended with. */
  datatype SaveOutcome = ApiTruthy | ApiFalsy | ApiThrew(message: Option<string>)

  /** The page's per-line goal form state. */
  datatype GoalForm = GoalForm(
    goals: map<string, string>,
    saving: map<string, bool>,
    errors: map<string, Option<string>>,
    successes: map<string, bool>)

  /** The form after the handler, and the goal sent to `setDailyProductionGoal` if any. */
  datatype SaveStep = SaveStep(form: GoalForm, request: Option<int>)

  function Lookup(m: map<string, string>, k: string): Option<string> {
    if k in m then Some(m[k]) else None
  }

  /** `error?.message || "Erro desconhecido"`. */
  function ErrorText(outcome: SaveOutcome): Option<string> {
    match outcome
    case ApiTruthy => None
    case ApiFalsy => Some("Resposta negativa da API")
    case ApiThrew(m) => Some(if m.None? || m.value == "" then "Erro desconhecido" else m.value)
  }

  /**
   * `handleSaveDailyGoal(line)` once the API call has settled with `outcome`.
   * The three-second timer that clears the success flag is not modelled.
   */
  function HandleSaveDailyGoal(form: GoalForm, line: string, outcome: SaveOutcome): (r: SaveStep)
    ensures r.request.Some? <==> ValidateGoal(Lookup(form.goals, line)).Valid?
    ensures r.request.Some? ==> r.request == Some(ValidateGoal(Lookup(form.goals, line)).goal) && r.request.value > 0
    ensures r.request.None? ==> r.form == form
    ensures r.request.Some? ==>
      && r.form.saving == form.saving[line := false]
      && r.form.successes == form.successes[line := outcome.ApiTruthy?]
      && r.form.errors == form.errors[line := ErrorText(outcome)]
      && r.form.goals == (if outcome.ApiTruthy? then form.goals[line := ""] else form.goals)
  {
    match ValidateGoal(Lookup(form.goals, line))
    case Valid(goal) =>
      var cleared := if outcome.ApiTruthy? then form.goals[line := ""] else form.goals;
      SaveStep(GoalForm(cleared, form.saving[line := false], form.errors[line := ErrorText(outcome)],
                        form.successes[line := outcome.ApiTruthy?]), Some(goal))
    case _ => SaveStep(form, None)
  }

  /** Saving one line's goal leaves every other line's entry, flags and messages as they were. */
  lemma SaveTouchesOnlyItsLine(form: GoalForm, line: string, outcome: SaveOutcome, other: string)
    requires other != line
    ensures var f := HandleSaveDailyGoal(form, line, outcome).form;
      && Lookup(f.goals, other) == Lookup(form.goals, other)
      && (other in f.saving <==> other in form.saving) && (other in f.saving ==> f.saving[other] == form.saving[other])
      && (other in f.errors <==> other in form.errors) && (other in f.errors ==> f.errors[other] == form.errors[other])
      && (other in f.successes <==> other in form.successes) && (other in f.successes ==> f.successes[other] == form.successes[other])
  {
  }

  /** Typing a positive safe integer and saving sends that number; the field is emptied only on a truthy answer. */
  lemma TypedGoalIsSent(form: GoalForm, line: string, n: int, outcome: SaveOutcome)
    requires 0 < n <= MAX_SAFE_INTEGER
    ensures var r := HandleSaveDailyGoal(form.(goals := form.goals[line := ShowInt(n)]), line, outcome);
      && r.request == Some(n)
      && (line in r.form.goals && r.form.goals[line] == "" <==> outcome.ApiTruthy?)
  {
    var typed := ShowInt(n);
    TypedGoalIsRead(n, "", "");
    assert "" + typed + "" == typed;
    assert |typed| >= 1;
    ValidEntryIsSent(form, line, typed, n, outcome);
  }

  lemma ValidEntryIsSent(form: GoalForm, line: string, typed: string, n: int, outcome: SaveOutcome)
    requires typed != "" && ValidateGoal(Some(typed)) == Valid(n)
    ensures var r := HandleSaveDailyGoal(form.(goals := form.goals[line := typed]), line, outcome);
      && r.request == Some(n)
      && (line in r.form.goals && r.form.goals[line] == "" <==> outcome.ApiTruthy?)
  {
    var f := form.(goals := form.goals[line := typed]);
    assert Lookup(f.goals, line) == Some(typed);
  }

  /** `isSavingGoal[line]`: a missing flag reads false. */
  function IsSaving(form: GoalForm, line: string): bool {
    line in form.saving && form.saving[line]
  }

  /** The "Salvar" button: disabled while the entry is missing or empty, or a save is in flight. */
  function SaveButtonDisabled(form: GoalForm, line: string): (disabled: bool)
    ensures disabled <==> Lookup(form.goals, line).GetOr("") == "" || IsSaving(form, line)
  {
    !(line in form.goals && form.goals[line] != "") || IsSaving(form, line)
  }

  /** Every goal the handler would send can be sent from the button, unless a save is in flight. */
  lemma ValidGoalEnablesButton(form: GoalForm, line: string)
    requires ValidateGoal(Lookup(form.goals, line)).Valid?
    ensures SaveButtonDisabled(form, line) <==> IsSaving(form, line)
  {
    if line in form.goals && form.goals[line] == "" {
      BlankGoals("");
    }
  }

  /** An enabled button does not guarantee a valid goal: an entry of white space passes the button but not the handler. */
  lemma EnabledButtonStillChecks(form: GoalForm, line: string, outcome: SaveOutcome)
    requires line in form.goals && form.goals[line] != "" && AllWhitespace(form.goals[line])
    requires !IsSaving(form, line)
    ensures !SaveButtonDisabled(form, line)
    ensures HandleSaveDailyGoal(form, line, outcome).request.None?
  {
    BlankGoals(form.goals[line]);
  }

  // ----- Line cards and totals -----

  /** A product of the page's per-line data. */
  datatype PageProduct = PageProduct(
    barcode: string, serialNumber: string, model: string, fabrication: string,
    currentStage: int, nextStage: Option<int>, stageTimes: seq<int>, totalActiveTime: int, idleTime: int)

  datatype LineData = LineData(dailyProduction: int, dailyTarget: int, products: seq<PageProduct>)

  /** "Em Produção" on a line card: products before stage 5. */
  function InProductionCount(ps: seq<PageProduct>): nat
    decreases |ps|
  {
    if |ps| == 0 then 0 else (if ps[0].currentStage < 5 then 1 else 0) + InProductionCount(ps[1..])
  }

  /** "Concluídos" on a line card: products at stage 5 exactly. */
  function CompletedCount(ps: seq<PageProduct>): nat
    decreases |ps|
  {
    if |ps| == 0 then 0 else (if ps[0].currentStage == 5 then 1 else 0) + CompletedCount(ps[1..])
  }

  function BeyondLastStageCount(ps: seq<PageProduct>): nat
    decreases |ps|
  {
    if |ps| == 0 then 0 else (if ps[0].currentStage > 5 then 1 else 0) + BeyondLastStageCount(ps[1..])
  }

  /** The two counters split the products; only stages past 5 escape both. */
  lemma {:induction false} CardCountsPartition(ps: seq<PageProduct>)
    ensures InProductionCount(ps) + CompletedCount(ps) + BeyondLastStageCount(ps) == |ps|
    ensures (forall i :: 0 <= i < |ps| ==> ps[i].currentStage <= 5) ==>
      InProductionCount(ps) + CompletedCount(ps) == |ps|
    decreases |ps|
  {
    if |ps| > 0 {
      CardCountsPartition(ps[1..]);
      if forall i :: 0 <= i < |ps| ==> ps[i].currentStage <= 5 {
        assert forall i :: 0 <= i < |ps| - 1 ==> ps[1..][i].currentStage <= 5 by {
          forall i | 0 <= i < |ps| - 1 ensures ps[1..][i].currentStage <= 5 {
            assert ps[1..][i] == ps[i + 1];
          }
        }
        assert ps[0].currentStage <= 5;
      }
    }
  }

  /** The overview's "Total Produzido": the `reduce` sum of every line's production. */
  function TotalProduced(lines: seq<LineData>): int
    decreases |lines|
  {
    if |lines| == 0 then 0 else TotalProduced(lines[..|lines| - 1]) + lines[|lines| - 1].dailyProduction
  }

  /** The overview's "Meta Total": the `reduce` sum of every line's target. */
  function TotalTarget(lines: seq<LineData>): int
    decreases |lines|
  {
    if |lines| == 0 then 0 else TotalTarget(lines[..|lines| - 1]) + lines[|lines| - 1].dailyTarget
  }

  /** Totals add up across any split of the lines, so each line contributes exactly once. */
  lemma {:induction false} TotalsSplit(a: seq<LineData>, b: seq<LineData>)
    ensures TotalProduced(a + b) == TotalProduced(a) + TotalProduced(b)
    ensures TotalTarget(a + b) == TotalTarget(a) + TotalTarget(b)
    decreases |b|
  {
    if |b| == 0 {
      assert a + b == a;
    } else {
      assert (a + b)[..|a + b| - 1] == a + b[..|b| - 1];
      TotalsSplit(a, b[..|b| - 1]);
    }
  }
}
