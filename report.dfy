/**
 * The report endpoint (`GET /api/report/generate?id=...`): the motor
 * query result is reshaped into report data (one row per `motor_steps`
 * record, sorted by catalog position) and the maintenance report's
 * content is derived from it (the timeline of completed steps and the
 * section of completed steps that have photos). Rendering to PDF is not
 * modelled; the document below is the content the renderer receives.
 */
module Report {
  import opened Values
  import opened Sequences

  /** The embedded `maintenance_steps(id, step_name, step_order)`. */
  datatype StepRef = StepRef(id: string, stepName: string, stepOrder: int)

  /** The embedded `technicians(name)`; the name column may be null. */
  datatype TechnicianRef = TechnicianRef(name: Option<string>)

  /** One embedded `motor_steps` record. Its `completed` column is not selected. */
  datatype MotorStepRecord = MotorStepRecord(
    completedAt: Option<string>,
    technician: Option<TechnicianRef>,
    step: StepRef,
    stepPhotos: Option<seq<Photo>>)

  /** The single `motors` row with its embedded relations. */
  datatype MotorRecord = MotorRecord(
    id: string, motorName: string, kw: Scalar, rpm: Scalar, notes: Scalar,
    ship: Option<ShipRef>, motorSteps: seq<MotorStepRecord>)

  /** One entry of `reportData.steps`. */
  datatype ReportStep = ReportStep(
    id: string, stepName: string, stepOrder: int,
    completedAt: Option<string>, technicianName: string,
    photos: seq<Photo>, completed: bool)

  datatype ReportData = ReportData(
    motorId: string, motorName: string, shipName: Option<string>,
    kw: Scalar, rpm: Scalar, notes: Scalar, steps: seq<ReportStep>)

  /** What `MaintenanceReport` puts on the page, without typesetting. */
  datatype ReportDocument = ReportDocument(
    workOrderNumber: string,
    shipName: Option<string>, motorName: string, kw: Scalar, rpm: Scalar,
    notesLine: Option<Scalar>,
    timeline: seq<ReportStep>,
    photoSection: seq<ReportStep>)

  datatype ReportResponse =
    | MissingId
    | MotorNotFound
    | Rendered(data: ReportData, document: ReportDocument)

  const UnknownTechnician: string := "Bilinmiyor"

  function StatusCode(r: ReportResponse): int {
    match r
    case MissingId => 400
    case MotorNotFound => 404
    case Rendered(_, _) => 200
  }

  // ---------------------------------------------------------------- rows

  /** `ms.technicians?.name || 'Bilinmiyor'` */
  function TechnicianName(t: Option<TechnicianRef>): (r: string)
    ensures t.Some? && Present(t.value.name) ==> r == t.value.name.value
    ensures !(t.Some? && Present(t.value.name)) ==> r == UnknownTechnician
    ensures r != ""
  {
    if t.Some? && Present(t.value.name) then t.value.name.value else UnknownTechnician
  }

  /** The per-record object literal of the `map` in the handler. */
  function ToReportStep(ms: MotorStepRecord): (r: ReportStep)
    ensures r.id == ms.step.id && r.stepName == ms.step.stepName && r.stepOrder == ms.step.stepOrder
    ensures r.completedAt == ms.completedAt
    ensures r.completed <==> Present(ms.completedAt)
    ensures r.technicianName == TechnicianName(ms.technician)
    ensures r.photos == if ms.stepPhotos.Some? then ms.stepPhotos.value else []
  {
    ReportStep(
      ms.step.id, ms.step.stepName, ms.step.stepOrder,
      ms.completedAt,
      TechnicianName(ms.technician),
      if ms.stepPhotos.Some? then ms.stepPhotos.value else [],
      Present(ms.completedAt))
  }

  function ToReportSteps(records: seq<MotorStepRecord>): (r: seq<ReportStep>)
    ensures |r| == |records|
    ensures forall i :: 0 <= i < |records| ==> r[i] == ToReportStep(records[i])
    ensures forall x :: x in r ==> (x.completed <==> Present(x.completedAt))
  {
    if records == [] then [] else [ToReportStep(records[0])] + ToReportSteps(records[1..])
  }

  // ---------------------------------------------------------------- sort

  function OrderOf(s: ReportStep): int { s.stepOrder }

  /** Sorted non-decreasing by `step_order`. */
  ghost predicate SortedByOrder(s: seq<ReportStep>) {
    SortedBy(s, OrderOf)
  }

  /** Places `x` in front of the first element whose order is not smaller. */
  function InsertByOrder(x: ReportStep, s: seq<ReportStep>): (r: seq<ReportStep>)
    ensures |r| == |s| + 1
    ensures multiset(r) == multiset(s) + multiset{x}
  {
    if s == [] then [x]
    else if x.stepOrder <= s[0].stepOrder then [x] + s
    else
      assert s == [s[0]] + s[1..];
      [s[0]] + InsertByOrder(x, s[1..])
  }

  /** Every order in `InsertByOrder(x, s)` is at least `b` when `x`'s and all of `s`'s are. */
  lemma {:induction false} InsertByOrderBound(x: ReportStep, s: seq<ReportStep>, b: int)
    requires b <= x.stepOrder && forall i :: 0 <= i < |s| ==> b <= s[i].stepOrder
    ensures forall i :: 0 <= i < |InsertByOrder(x, s)| ==> b <= InsertByOrder(x, s)[i].stepOrder
  {
    if s != [] && x.stepOrder > s[0].stepOrder {
      InsertByOrderBound(x, s[1..], b);
    }
  }

  lemma SortedCons(h: ReportStep, t: seq<ReportStep>)
    requires SortedByOrder(t) && forall i :: 0 <= i < |t| ==> h.stepOrder <= t[i].stepOrder
    ensures SortedByOrder([h] + t)
  {
    var r := [h] + t;
    forall i, j | 0 <= i < j < |r| ensures r[i].stepOrder <= r[j].stepOrder {
      assert r[j] == t[j - 1];
      if i > 0 { assert r[i] == t[i - 1]; }
    }
  }

  lemma {:induction false} InsertByOrderSorted(x: ReportStep, s: seq<ReportStep>)
    requires SortedByOrder(s)
    ensures SortedByOrder(InsertByOrder(x, s))
  {
    if s == [] {
    } else if x.stepOrder <= s[0].stepOrder {
      SortedCons(x, s);
    } else {
      InsertByOrderSorted(x, s[1..]);
      InsertByOrderBound(x, s[1..], s[0].stepOrder);
      SortedCons(s[0], InsertByOrder(x, s[1..]));
    }
  }

  /**
   * `.sort((a, b) => a.step_order - b.step_order)`: JavaScript's sort is stable,
   * so this is a stable sort by `step_order`.
   */
  function SortByOrder(s: seq<ReportStep>): (r: seq<ReportStep>)
    ensures |r| == |s|
    ensures SortedByOrder(r)
    ensures multiset(r) == multiset(s)
  {
    if s == [] then []
    else
      assert s == [s[0]] + s[1..];
      InsertByOrderSorted(s[0], SortByOrder(s[1..]));
      InsertByOrder(s[0], SortByOrder(s[1..]))
  }

  /** The entries whose `step_order` is `k`, in their order. */
  function WithOrder(s: seq<ReportStep>, k: int): (r: seq<ReportStep>)
    ensures forall i :: 0 <= i < |r| ==> r[i].stepOrder == k
  {
    if s == [] then []
    else if s[0].stepOrder == k then [s[0]] + WithOrder(s[1..], k)
    else WithOrder(s[1..], k)
  }

  lemma {:induction false} InsertByOrderStable(x: ReportStep, s: seq<ReportStep>, k: int)
    ensures WithOrder(InsertByOrder(x, s), k) == if x.stepOrder == k then [x] + WithOrder(s, k) else WithOrder(s, k)
  {
    if s != [] && x.stepOrder > s[0].stepOrder {
      InsertByOrderStable(x, s[1..], k);
      assert ([s[0]] + InsertByOrder(x, s[1..]))[1..] == InsertByOrder(x, s[1..]);
    }
  }

  /** Entries with equal `step_order` keep their input order. */
  lemma {:induction false} SortByOrderStable(s: seq<ReportStep>, k: int)
    ensures WithOrder(SortByOrder(s), k) == WithOrder(s, k)
  {
    if s != [] {
      SortByOrderStable(s[1..], k);
      InsertByOrderStable(s[0], SortByOrder(s[1..]), k);
    }
  }

  lemma {:induction false} SubsequenceKeepsSorted(r: seq<ReportStep>, s: seq<ReportStep>)
    requires IsSubsequence(r, s)
    ensures SortedByOrder(s) ==> SortedByOrder(r)
    decreases |s|
  {
    if r != [] && SortedByOrder(s) {
      if r[0] == s[0] && IsSubsequence(r[1..], s[1..]) {
        SubsequenceKeepsSorted(r[1..], s[1..]);
        SubsequenceMembers(r[1..], s[1..]);
        forall j | 0 < j < |r| ensures r[0].stepOrder <= r[j].stepOrder {
          assert r[j] in r[1..];
        }
      } else {
        SubsequenceKeepsSorted(r, s[1..]);
      }
    }
  }

  // ---------------------------------------------------------------- handler

  function BuildReportData(m: MotorRecord): (d: ReportData)
    ensures d.motorId == m.id && d.motorName == m.motorName
    ensures d.shipName == ShipName(m.ship)
    ensures d.kw == m.kw && d.rpm == m.rpm && d.notes == m.notes
    ensures |d.steps| == |m.motorSteps|
    ensures multiset(d.steps) == multiset(ToReportSteps(m.motorSteps))
    ensures SortedByOrder(d.steps)
  {
    ReportData(
      m.id, m.motorName,
      ShipName(m.ship),
      m.kw, m.rpm, m.notes,
      SortByOrder(ToReportSteps(m.motorSteps)))
  }

  function IsCompleted(s: ReportStep): bool { s.completed }

  function HasPhotos(s: ReportStep): bool { |s.photos| > 0 }

  /** `reportData.steps.filter(s => s.completed)` */
  function CompletedSteps(steps: seq<ReportStep>): (r: seq<ReportStep>)
    ensures IsSubsequence(r, steps)
    ensures forall i :: 0 <= i < |r| ==> r[i].completed
    ensures forall x :: multiset(r)[x] == if x.completed then multiset(steps)[x] else 0
    ensures SortedByOrder(steps) ==> SortedByOrder(r)
  {
    FilterSpec(steps, IsCompleted);
    SubsequenceKeepsSorted(Filter(steps, IsCompleted), steps);
    Filter(steps, IsCompleted)
  }

  /** `completedSteps.filter(s => s.photos && s.photos.length > 0)` */
  function PhotoSection(completed: seq<ReportStep>): (r: seq<ReportStep>)
    ensures IsSubsequence(r, completed)
    ensures forall i :: 0 <= i < |r| ==> |r[i].photos| > 0
    ensures forall x :: multiset(r)[x] == if |x.photos| > 0 then multiset(completed)[x] else 0
  {
    FilterSpec(completed, HasPhotos);
    Filter(completed, HasPhotos)
  }

  /** `reportData.motor_id.substring(0, 8)` */
  function WorkOrderNumber(motorId: string): (r: string)
    ensures |r| == if |motorId| < 8 then |motorId| else 8
    ensures r <= motorId
  {
    if |motorId| < 8 then motorId else motorId[..8]
  }

  function BuildDocument(d: ReportData): (doc: ReportDocument)
    ensures doc.workOrderNumber == WorkOrderNumber(d.motorId)
    ensures doc.shipName == d.shipName && doc.motorName == d.motorName
    ensures doc.kw == d.kw && doc.rpm == d.rpm
    ensures doc.notesLine == if Truthy(d.notes) then Some(d.notes) else None
    ensures doc.timeline == CompletedSteps(d.steps)
    ensures doc.photoSection == PhotoSection(doc.timeline)
  {
    var timeline := CompletedSteps(d.steps);
    ReportDocument(
      WorkOrderNumber(d.motorId),
      d.shipName, d.motorName, d.kw, d.rpm,
      if Truthy(d.notes) then Some(d.notes) else None,
      timeline,
      PhotoSection(timeline))
  }

  /**
   * The handler: `lookup(id)` is the `motors` query `.eq('id', id).single()`,
   * `None` when it errors or returns no row.
   */
  function Generate(id: Option<string>, lookup: string -> Option<MotorRecord>): (r: ReportResponse)
    ensures r == MissingId <==> !Present(id)
    ensures r == MotorNotFound <==> Present(id) && lookup(id.value).None?
    ensures r.Rendered? ==>
      (Present(id) && lookup(id.value).Some?
       && r.data == BuildReportData(lookup(id.value).value)
       && r.document == BuildDocument(r.data))
  {
    if !Present(id) then MissingId
    else
      match lookup(id.value)
      case None => MotorNotFound
      case Some(m) =>
        var d := BuildReportData(m);
        Rendered(d, BuildDocument(d))
  }

  // ---------------------------------------------------------------- properties

  /** A missing id is answered without consulting the motor lookup at all. */
  lemma MissingIdIgnoresLookup(id: Option<string>, l1: string -> Option<MotorRecord>, l2: string -> Option<MotorRecord>)
    requires !Present(id)
    ensures Generate(id, l1) == Generate(id, l2) == MissingId
    ensures StatusCode(Generate(id, l1)) == 400
  {
  }

  /**
   * The timeline lists exactly the records whose `completed_at` is truthy,
   * each once, ordered by catalog position and not by completion time.
   */
  lemma {:induction false} TimelineIsCompletedRecords(m: MotorRecord)
    ensures var t := BuildDocument(BuildReportData(m)).timeline;
      && SortedByOrder(t)
      && (forall i :: 0 <= i < |t| ==> Present(t[i].completedAt))
      && (forall x :: multiset(t)[x] == if x.completed then multiset(ToReportSteps(m.motorSteps))[x] else 0)
  {
    var rows := ToReportSteps(m.motorSteps);
    var d := BuildReportData(m);
    var t := CompletedSteps(d.steps);
    forall i | 0 <= i < |t| ensures Present(t[i].completedAt) {
      var x := t[i];
      assert x in multiset(t);
      assert x in multiset(d.steps);
      assert x in multiset(rows);
      assert x in rows;
    }
  }

  /** With no truthy `completed_at` the report still renders, with an empty timeline and photo section. */
  lemma {:induction false} NothingCompletedGivesEmptyReport(id: string, lookup: string -> Option<MotorRecord>)
    requires id != "" && lookup(id).Some?
    requires forall i :: 0 <= i < |lookup(id).value.motorSteps| ==> !Present(lookup(id).value.motorSteps[i].completedAt)
    ensures Generate(Some(id), lookup).Rendered?
    ensures Generate(Some(id), lookup).document.timeline == []
    ensures Generate(Some(id), lookup).document.photoSection == []
  {
    TimelineIsCompletedRecords(lookup(id).value);
  }

  /** The photo section lists, in timeline order, the completed steps that have photos, each with its photos as uploaded. */
  lemma PhotoSectionWithinTimeline(d: ReportData)
    ensures var doc := BuildDocument(d);
      && IsSubsequence(doc.photoSection, doc.timeline)
      && IsSubsequence(doc.photoSection, d.steps)
      && (SortedByOrder(d.steps) ==> SortedByOrder(doc.photoSection))
  {
    var doc := BuildDocument(d);
    SubsequenceTransitive(doc.photoSection, doc.timeline, d.steps);
    SubsequenceKeepsSorted(doc.photoSection, d.steps);
  }
}
