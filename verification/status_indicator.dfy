/**
 * `ProductionStatusIndicator` and the `useProductionStatus` hook
 * (components/production-status-indicator.tsx): the status label and
 * colour mappings, the efficiency the card shows, and the three reducers
 * over the list of statuses.
 */
module StatusIndicator {
  import opened Wrappers

  /** `lastUpdate` is an epoch in milliseconds; `status` stays a string so the fallback branches are reachable. */
  datatype ProductionStatus = ProductionStatus(
    id: string, name: string, currentProduction: int, targetProduction: int,
    efficiency: real, status: string, lastUpdate: int, issues: seq<string>)

  // ----- Label and colour -----

  const UNKNOWN_TEXT: string := "Desconhecido"
  const UNKNOWN_COLOR: string := "text-gray-600 bg-gray-100 border-gray-200"

  predicate KnownStatus(status: string) {
    status == "running" || status == "stopped" || status == "maintenance" || status == "completed"
  }

  function GetStatusText(status: string): (text: string)
    ensures text == UNKNOWN_TEXT <==> !KnownStatus(status)
  {
    match status
    case "running" => "Em Produção"
    case "stopped" => "Parado"
    case "maintenance" => "Manutenção"
    case "completed" => "Concluído"
    case _ => UNKNOWN_TEXT
  }

  function GetStatusColor(status: string): (color: string)
    ensures color == UNKNOWN_COLOR <==> !KnownStatus(status)
  {
    match status
    case "running" => "text-green-600 bg-green-100 border-green-200"
    case "stopped" => "text-red-600 bg-red-100 border-red-200"
    case "maintenance" => "text-orange-600 bg-orange-100 border-orange-200"
    case "completed" => "text-blue-600 bg-blue-100 border-blue-200"
    case _ => UNKNOWN_COLOR
  }

  /** The four known statuses get four different labels and four different colours. */
  lemma KnownStatusesDistinguished(a: string, b: string)
    requires KnownStatus(a) && KnownStatus(b) && a != b
    ensures GetStatusText(a) != GetStatusText(b)
    ensures GetStatusColor(a) != GetStatusColor(b)
  {
  }

  /** Label and colour classify statuses alike: two statuses share a label exactly when they share a colour. */
  lemma TextAndColorAgree(a: string, b: string)
    ensures GetStatusText(a) == GetStatusText(b) <==> GetStatusColor(a) == GetStatusColor(b)
  {
  }

  // ----- Efficiency -----

  /** A JavaScript number as far as the division can produce it. */
  datatype JsNumber = Finite(value: real) | PositiveInfinity | NegativeInfinity | NaN

  /** `(currentProduction / targetProduction) * 100` as written: a zero target gives NaN or an infinity. */
  function EfficiencyAsWritten(current: int, target: int): (r: JsNumber)
    ensures r.Finite? <==> target != 0
    ensures r.Finite? ==> r.value * (target as real) == (current as real) * 100.0
  {
    if target == 0 then
      (if current == 0 then NaN else if current > 0 then PositiveInfinity else NegativeInfinity)
    else Finite((current as real) / (target as real) * 100.0)
  }

  /** A line with no target yet makes the card print "NaN%" or "Infinity%". */
  lemma ZeroTargetBreaksEfficiency(current: int)
    ensures !EfficiencyAsWritten(current, 0).Finite?
    ensures current == 0 ==> EfficiencyAsWritten(current, 0) == NaN
  {
  }

  /** The efficiency with a zero target reading as 0%. */
  function GuardedEfficiency(current: int, target: int): (r: real)
    ensures target != 0 ==> r * (target as real) == (current as real) * 100.0
    ensures target == 0 ==> r == 0.0
  {
    if target == 0 then 0.0 else (current as real) / (target as real) * 100.0
  }

  /** The guard changes nothing where the division was defined, and keeps a partial target within 0-100%. */
  lemma GuardedEfficiencyAgrees(current: int, target: int)
    ensures target != 0 ==> EfficiencyAsWritten(current, target) == Finite(GuardedEfficiency(current, target))
    ensures 0 <= current <= target ==> 0.0 <= GuardedEfficiency(current, target) <= 100.0
  {
    if 0 < current <= target {
      var r := GuardedEfficiency(current, target);
      assert r * (target as real) <= (target as real) * 100.0;
    }
  }

  /**
   * The efficiency the card computes, as written: it ignores the status's own
   * `efficiency` field, agrees with the guarded percentage for a non-zero
   * target, and is not a finite number for a zero target.
   */
  function CardEfficiency(s: ProductionStatus): (r: JsNumber)
    ensures s.targetProduction != 0 ==> r == Finite(GuardedEfficiency(s.currentProduction, s.targetProduction))
    ensures s.targetProduction == 0 ==> !r.Finite?
  {
    GuardedEfficiencyAgrees(s.currentProduction, s.targetProduction);
    EfficiencyAsWritten(s.currentProduction, s.targetProduction)
  }

  lemma CardIgnoresReportedEfficiency(s: ProductionStatus, e: real)
    ensures CardEfficiency(s.(efficiency := e)) == CardEfficiency(s)
  {
  }

  // ----- Reducers -----

  /** `Partial<ProductionStatus>`: a field is overlaid when present. */
  datatype StatusPatch = StatusPatch(
    id: Option<string>, name: Option<string>, currentProduction: Option<int>, targetProduction: Option<int>,
    efficiency: Option<real>, status: Option<string>, lastUpdate: Option<int>, issues: Option<seq<string>>)

  /** `{ ...status, ...updates }`. */
  function Overlay(s: ProductionStatus, u: StatusPatch): (r: ProductionStatus)
    ensures u.id.Some? ==> r.id == u.id.value
    ensures u.id.None? ==> r.id == s.id
    ensures u.name.Some? ==> r.name == u.name.value
    ensures u.name.None? ==> r.name == s.name
    ensures u.currentProduction.Some? ==> r.currentProduction == u.currentProduction.value
    ensures u.currentProduction.None? ==> r.currentProduction == s.currentProduction
    ensures u.targetProduction.Some? ==> r.targetProduction == u.targetProduction.value
    ensures u.targetProduction.None? ==> r.targetProduction == s.targetProduction
    ensures u.efficiency.Some? ==> r.efficiency == u.efficiency.value
    ensures u.efficiency.None? ==> r.efficiency == s.efficiency
    ensures u.status.Some? ==> r.status == u.status.value
    ensures u.status.None? ==> r.status == s.status
    ensures u.lastUpdate.Some? ==> r.lastUpdate == u.lastUpdate.value
    ensures u.lastUpdate.None? ==> r.lastUpdate == s.lastUpdate
    ensures u.issues.Some? ==> r.issues == u.issues.value
    ensures u.issues.None? ==> r.issues == s.issues
    ensures u == StatusPatch(None, None, None, None, None, None, None, None) ==> r == s
  {
    ProductionStatus(
      u.id.GetOr(s.id), u.name.GetOr(s.name), u.currentProduction.GetOr(s.currentProduction),
      u.targetProduction.GetOr(s.targetProduction), u.efficiency.GetOr(s.efficiency),
      u.status.GetOr(s.status), u.lastUpdate.GetOr(s.lastUpdate), u.issues.GetOr(s.issues))
  }

  lemma OverlayIdempotent(s: ProductionStatus, u: StatusPatch)
    ensures Overlay(Overlay(s, u), u) == Overlay(s, u)
  {
  }

  /** `updateStatus(id, updates)`: every entry with that id gets the patch; order, length and the other entries are kept. */
  function UpdateStatus(statuses: seq<ProductionStatus>, id: string, u: StatusPatch): (r: seq<ProductionStatus>)
    ensures |r| == |statuses|
    ensures forall i :: 0 <= i < |r| && statuses[i].id != id ==> r[i] == statuses[i]
    ensures forall i :: 0 <= i < |r| && statuses[i].id == id ==> r[i] == Overlay(statuses[i], u)
  {
    seq(|statuses|, i requires 0 <= i < |statuses| =>
      if statuses[i].id == id then Overlay(statuses[i], u) else statuses[i])
  }

  /** Applying the same update twice is the same as applying it once. */
  lemma UpdateStatusIdempotent(statuses: seq<ProductionStatus>, id: string, u: StatusPatch)
    ensures UpdateStatus(UpdateStatus(statuses, id, u), id, u) == UpdateStatus(statuses, id, u)
  {
    var once := UpdateStatus(statuses, id, u);
    var twice := UpdateStatus(once, id, u);
    forall i | 0 <= i < |statuses|
      ensures twice[i] == once[i]
    {
      if statuses[i].id == id {
        OverlayIdempotent(statuses[i], u);
      }
    }
  }

  /** An update for an id nobody has changes nothing. */
  lemma UpdateAbsentIsIdentity(statuses: seq<ProductionStatus>, id: string, u: StatusPatch)
    requires forall i :: 0 <= i < |statuses| ==> statuses[i].id != id
    ensures UpdateStatus(statuses, id, u) == statuses
  {
  }

  /** `addStatus(s)`: appended at the end. */
  function AddStatus(statuses: seq<ProductionStatus>, s: ProductionStatus): (r: seq<ProductionStatus>)
    ensures |r| == |statuses| + 1 && r[..|statuses|] == statuses && r[|statuses|] == s
  {
    statuses + [s]
  }

  /** `removeStatus(id)`: keeps, in order, the entries whose id differs. */
  function RemoveStatus(statuses: seq<ProductionStatus>, id: string): (r: seq<ProductionStatus>)
    ensures forall i :: 0 <= i < |r| ==> r[i].id != id
    ensures forall x :: x in r <==> x in statuses && x.id != id
    ensures |r| <= |statuses|
    decreases |statuses|
  {
    if |statuses| == 0 then []
    else if statuses[0].id == id then RemoveStatus(statuses[1..], id)
    else [statuses[0]] + RemoveStatus(statuses[1..], id)
  }

  /** Removal works piecewise, so the survivors keep their relative order. */
  lemma {:induction false} RemoveStatusSplits(a: seq<ProductionStatus>, b: seq<ProductionStatus>, id: string)
    ensures RemoveStatus(a + b, id) == RemoveStatus(a, id) + RemoveStatus(b, id)
    decreases |a|
  {
    if |a| > 0 {
      assert (a + b)[1..] == a[1..] + b;
      RemoveStatusSplits(a[1..], b, id);
    } else {
      assert a + b == b;
    }
  }

  /** Removing an id nobody has is the identity. */
  lemma {:induction false} RemoveAbsentIsIdentity(statuses: seq<ProductionStatus>, id: string)
    requires forall i :: 0 <= i < |statuses| ==> statuses[i].id != id
    ensures RemoveStatus(statuses, id) == statuses
    decreases |statuses|
  {
    if |statuses| > 0 {
      RemoveAbsentIsIdentity(statuses[1..], id);
    }
  }

  /** Removing twice is removing once. */
  lemma RemoveStatusIdempotent(statuses: seq<ProductionStatus>, id: string)
    ensures RemoveStatus(RemoveStatus(statuses, id), id) == RemoveStatus(statuses, id)
  {
    RemoveAbsentIsIdentity(RemoveStatus(statuses, id), id);
  }

  /** Adding a status and removing its id leaves the list as removing alone would. */
  lemma RemoveUndoesAdd(statuses: seq<ProductionStatus>, s: ProductionStatus)
    ensures RemoveStatus(AddStatus(statuses, s), s.id) == RemoveStatus(statuses, s.id)
  {
    RemoveStatusSplits(statuses, [s], s.id);
  }

  /** Removing another id commutes with adding. */
  lemma RemoveOtherCommutesWithAdd(statuses: seq<ProductionStatus>, s: ProductionStatus, id: string)
    requires s.id != id
    ensures RemoveStatus(AddStatus(statuses, s), id) == AddStatus(RemoveStatus(statuses, id), s)
  {
    RemoveStatusSplits(statuses, [s], id);
  }
}
