/**
 * The progress view endpoint (`GET /api/motor/get?id=...`): the motor's
 * attributes plus every catalog step, each joined with the first
 * `motor_steps` record the steps query embedded for it. The steps query
 * selects from `maintenance_steps` with no condition on the motor, so the
 * embedded records may belong to any motor; the model keeps that: the
 * steps query result is an input that does not depend on the motor id.
 */
module MotorView {
  import opened Values
  import opened Sequences

  /** The catalog columns of a `maintenance_steps` row (`*`). */
  datatype StepColumns = StepColumns(
    id: string, stepName: string, stepOrder: int,
    requiredPhoto: bool, isMandatory: bool)

  /** One embedded `motor_steps(id, completed, completed_at, step_photos(image_url))` record. */
  datatype EmbeddedMotorStep = EmbeddedMotorStep(
    id: RowId, completed: Option<bool>, completedAt: Option<string>,
    stepPhotos: Option<seq<Photo>>)

  /** A row of the steps query: the catalog columns and the embedded `motor_steps` array. */
  datatype CatalogStep = CatalogStep(columns: StepColumns, motorSteps: seq<EmbeddedMotorStep>)

  /** An output step: the catalog columns, the progress fields, and no `motor_steps`. */
  datatype ProgressStep = ProgressStep(
    columns: StepColumns,
    completed: bool, completedAt: Option<string>,
    motorStepId: Option<RowId>, photos: seq<Photo>)

  /** The `motors` row: `motor_name, kw, rpm, notes, ships(name)`. */
  datatype MotorRow = MotorRow(motorName: string, kw: Scalar, rpm: Scalar, notes: Scalar, ship: Option<ShipRef>)

  datatype MotorProgress = MotorProgress(
    motorName: string, shipName: Option<string>,
    kw: Scalar, rpm: Scalar, notes: Scalar,
    steps: seq<ProgressStep>)

  datatype ViewResponse =
    | MissingId
    | MotorNotFound
    | StepsUnavailable
    | View(result: MotorProgress)

  function StatusCode(r: ViewResponse): int {
    match r
    case MissingId => 400
    case MotorNotFound => 404
    case StepsUnavailable => 500
    case View(_) => 200
  }

  /** The progress fields when there is no record (`motorStep` is `{}`). */
  function Unstarted(c: StepColumns): (p: ProgressStep)
    ensures p.columns == c && !p.completed && p.completedAt == None
    ensures p.motorStepId == None && p.photos == []
  {
    ProgressStep(c, false, None, None, [])
  }

  /** The body of `stepsData.map(step => ...)`. */
  function JoinStep(step: CatalogStep): (p: ProgressStep)
    ensures p.columns == step.columns
    ensures step.motorSteps == [] ==> p == Unstarted(step.columns)
    ensures step.motorSteps != [] ==>
      var ms := step.motorSteps[0];
      && (p.completed <==> ms.completed == Some(true))
      && p.completedAt == OrElse(ms.completedAt, None)
      && p.motorStepId == (if ms.id != 0 then Some(ms.id) else None)
      && p.photos == (if ms.stepPhotos.Some? then ms.stepPhotos.value else [])
  {
    if |step.motorSteps| > 0 then
      var ms := step.motorSteps[0];
      ProgressStep(
        step.columns,
        ms.completed == Some(true),
        OrElse(ms.completedAt, None),
        if ms.id != 0 then Some(ms.id) else None,
        if ms.stepPhotos.Some? then ms.stepPhotos.value else [])
    else
      Unstarted(step.columns)
  }

  function JoinSteps(steps: seq<CatalogStep>): (r: seq<ProgressStep>)
    ensures |r| == |steps|
    ensures forall i :: 0 <= i < |steps| ==> r[i] == JoinStep(steps[i])
  {
    if steps == [] then [] else [JoinStep(steps[0])] + JoinSteps(steps[1..])
  }

  function CatalogOrder(s: CatalogStep): int { s.columns.stepOrder }

  function ProgressOrder(s: ProgressStep): int { s.columns.stepOrder }

  /**
   * The handler. `lookup(id)` is the `motors` query `.eq('id', id).single()`
   * (`None` on an error or no row); `stepsQuery` is the steps query
   * (`None` on an error or no data), ordered by `step_order` by the database.
   */
  function Get(id: Option<string>, lookup: string -> Option<MotorRow>, stepsQuery: Option<seq<CatalogStep>>): (r: ViewResponse)
    ensures r == MissingId <==> !Present(id)
    ensures r == MotorNotFound <==> Present(id) && lookup(id.value).None?
    ensures r == StepsUnavailable <==> Present(id) && lookup(id.value).Some? && stepsQuery.None?
    ensures r.View? ==>
      (Present(id) && lookup(id.value).Some? && stepsQuery.Some? &&
       var m := lookup(id.value).value;
       && r.result.motorName == m.motorName
       && r.result.shipName == ShipName(m.ship)
       && r.result.kw == m.kw && r.result.rpm == m.rpm && r.result.notes == m.notes
       && r.result.steps == JoinSteps(stepsQuery.value))
  {
    if !Present(id) then MissingId
    else match lookup(id.value)
      case None => MotorNotFound
      case Some(m) =>
        match stepsQuery
        case None => StepsUnavailable
        case Some(steps) =>
          View(MotorProgress(
            m.motorName,
            ShipName(m.ship),
            m.kw, m.rpm, m.notes,
            JoinSteps(steps)))
  }

  // ---------------------------------------------------------------- properties

  /** One output step per catalog row, same catalog columns, same order; so ordered when the query is. */
  lemma JoinStepsKeepsCatalog(steps: seq<CatalogStep>)
    ensures |JoinSteps(steps)| == |steps|
    ensures forall i :: 0 <= i < |steps| ==> JoinSteps(steps)[i].columns == steps[i].columns
    ensures SortedBy(steps, CatalogOrder) ==> SortedBy(JoinSteps(steps), ProgressOrder)
  {
  }

  /**
   * The embedded records are not filtered by motor: two different motors get
   * the same step list from the same steps query.
   */
  lemma StepsDoNotDependOnMotor(a: string, b: string, lookup: string -> Option<MotorRow>, steps: seq<CatalogStep>)
    requires a != "" && b != "" && lookup(a).Some? && lookup(b).Some?
    ensures Get(Some(a), lookup, Some(steps)).View? && Get(Some(b), lookup, Some(steps)).View?
    ensures Get(Some(a), lookup, Some(steps)).result.steps == Get(Some(b), lookup, Some(steps)).result.steps
  {
  }
}
