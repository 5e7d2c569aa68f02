/**
 * The two write endpoints over the shared tables:
 *  - `POST /api/motor/upload-photo` upserts the (motor, step) row of
 *    `motor_steps`, then appends a `step_photos` row referencing it;
 *  - `POST /api/motor/complete-step` upserts the same row as completed,
 *    then appends a `logs` row whose outcome is never checked.
 * `motor_steps` is unique on (motor_id, step_id), so it is a map from that
 * pair; `step_photos` and `logs` are append-only sequences. Database
 * failures are the boolean inputs `upsertOk`, `insertOk` and `logOk`, and the
 * clock is the input `now`.
 */
module StepStore {
  import opened Values

  /** The conflict key of `motor_steps`: (motor_id, step_id). */
  type StepKey = (string, string)

  datatype MotorStepRow = MotorStepRow(
    id: RowId, completed: bool, completedAt: Option<string>, technicianId: Option<string>)

  datatype PhotoRow = PhotoRow(motorStepId: RowId, imageUrl: string)

  datatype LogRow = LogRow(motorId: string, action: string, technicianId: string)

  datatype Tables = Tables(
    motorSteps: map<StepKey, MotorStepRow>,
    stepPhotos: seq<PhotoRow>,
    logs: seq<LogRow>,
    nextId: RowId)

  const EmptyTables: Tables := Tables(map[], [], [], 1)

  /** The ids of all `motor_steps` rows. */
  ghost function RowIds(t: Tables): set<RowId> {
    set k | k in t.motorSteps :: t.motorSteps[k].id
  }

  /**
   * Every row has its own id, no id has been handed out twice, and every
   * photo references an existing row (the foreign key of `step_photos`).
   */
  ghost predicate WellFormed(t: Tables) {
    && t.nextId >= 1
    && (forall k :: k in t.motorSteps ==> 1 <= t.motorSteps[k].id < t.nextId)
    && (forall k1, k2 :: k1 in t.motorSteps && k2 in t.motorSteps && t.motorSteps[k1].id == t.motorSteps[k2].id ==> k1 == k2)
    && (forall i :: 0 <= i < |t.stepPhotos| ==> t.stepPhotos[i].motorStepId in RowIds(t))
  }

  /** `k` has the same row, or the same absence of a row, in `t` and `u`. */
  ghost predicate SameRow(t: Tables, u: Tables, k: StepKey) {
    (k in t.motorSteps <==> k in u.motorSteps) && (k in t.motorSteps ==> t.motorSteps[k] == u.motorSteps[k])
  }

  datatype UploadResult = UploadMissingFields | StepRecordFailed | PhotoInsertFailed | PhotoSaved

  function UploadStatus(r: UploadResult): int {
    match r
    case UploadMissingFields => 400
    case StepRecordFailed => 500
    case PhotoInsertFailed => 500
    case PhotoSaved => 200
  }

  datatype CompleteResult = CompleteMissingFields | CompletionFailed | StepCompleted

  function CompleteStatus(r: CompleteResult): int {
    match r
    case CompleteMissingFields => 400
    case CompletionFailed => 500
    case StepCompleted => 200
  }

  /** The `action` text of the log row. */
  function LogAction(stepId: string): string {
    "Adım Tamamlandı: step_id=" + stepId
  }

  /**
   * `upsert({ motor_id, step_id }, { onConflict: 'motor_id, step_id' })`:
   * an existing row is left as it is; otherwise a row is created with the
   * column defaults (not completed, no time, no technician).
   */
  function UpsertKey(t: Tables, key: StepKey): (u: Tables)
    ensures key in u.motorSteps
    ensures key in t.motorSteps ==> u == t
    ensures key !in t.motorSteps ==> u.motorSteps[key] == MotorStepRow(t.nextId, false, None, None)
    ensures forall k :: k != key ==> SameRow(t, u, k)
    ensures u.stepPhotos == t.stepPhotos && u.logs == t.logs
    ensures WellFormed(t) ==> WellFormed(u)
  {
    if key in t.motorSteps then t
    else
      var u := t.(motorSteps := t.motorSteps[key := MotorStepRow(t.nextId, false, None, None)], nextId := t.nextId + 1);
      assert forall k :: k in t.motorSteps ==> k in u.motorSteps && u.motorSteps[k] == t.motorSteps[k];
      RowIdsGrow(t, u);
      u
  }

  /** `upsert({ motor_id, step_id, completed: true, completed_at, technician_id }, ...)`. */
  function UpsertCompleted(t: Tables, key: StepKey, now: string, technicianId: string): (u: Tables)
    ensures key in u.motorSteps
    ensures u.motorSteps[key].completed && u.motorSteps[key].completedAt == Some(now)
    ensures u.motorSteps[key].technicianId == Some(technicianId)
    ensures key in t.motorSteps ==> u.motorSteps[key].id == t.motorSteps[key].id && u.nextId == t.nextId
    ensures forall k :: k != key ==> SameRow(t, u, k)
    ensures u.stepPhotos == t.stepPhotos && u.logs == t.logs
    ensures WellFormed(t) ==> WellFormed(u)
  {
    if key in t.motorSteps then
      var row := t.motorSteps[key];
      var u := t.(motorSteps := t.motorSteps[key := row.(completed := true, completedAt := Some(now), technicianId := Some(technicianId))]);
      assert forall k :: k in t.motorSteps ==> k in u.motorSteps && u.motorSteps[k].id == t.motorSteps[k].id;
      RowIdsGrow(t, u);
      u
    else
      var u := t.(motorSteps := t.motorSteps[key := MotorStepRow(t.nextId, true, Some(now), Some(technicianId))], nextId := t.nextId + 1);
      assert forall k :: k in t.motorSteps ==> k in u.motorSteps && u.motorSteps[k] == t.motorSteps[k];
      RowIdsGrow(t, u);
      u
  }

  lemma RowIdsGrow(t: Tables, u: Tables)
    requires forall k :: k in t.motorSteps ==> k in u.motorSteps && u.motorSteps[k].id == t.motorSteps[k].id
    ensures RowIds(t) <= RowIds(u)
  {
    forall id | id in RowIds(t) ensures id in RowIds(u) {
      var k :| k in t.motorSteps && t.motorSteps[k].id == id;
      assert k in u.motorSteps && u.motorSteps[k].id == id;
    }
  }

  /** The upload-photo handler on the tables: the new tables and the outcome. */
  function Attach(t: Tables, motorId: Option<string>, stepId: Option<string>, imageUrl: Option<string>,
                       upsertOk: bool, insertOk: bool): (r: (Tables, UploadResult))
    ensures r.1 == UploadMissingFields <==> !(Present(motorId) && Present(stepId) && Present(imageUrl))
    ensures r.1 == StepRecordFailed <==> Present(motorId) && Present(stepId) && Present(imageUrl) && !upsertOk
    ensures r.1 == PhotoSaved <==> Present(motorId) && Present(stepId) && Present(imageUrl) && upsertOk && insertOk
    ensures r.1 == PhotoInsertFailed <==> Present(motorId) && Present(stepId) && Present(imageUrl) && upsertOk && !insertOk
    ensures r.1 == UploadMissingFields || r.1 == StepRecordFailed ==> r.0 == t
    ensures r.0.logs == t.logs
    ensures r.1 == PhotoInsertFailed || r.1 == PhotoSaved ==>
      var key := (motorId.value, stepId.value);
      && key in r.0.motorSteps
      && (key in t.motorSteps ==> r.0.motorSteps[key] == t.motorSteps[key] && r.0.nextId == t.nextId)
      && (key !in t.motorSteps ==>
            !r.0.motorSteps[key].completed && r.0.motorSteps[key].completedAt == None
            && r.0.motorSteps[key].technicianId == None)
      && (forall k :: k != key ==> SameRow(t, r.0, k))
      && r.0.stepPhotos == t.stepPhotos + (if r.1 == PhotoSaved then [PhotoRow(r.0.motorSteps[key].id, imageUrl.value)] else [])
    ensures WellFormed(t) ==> WellFormed(r.0)
  {
    if !Present(motorId) || !Present(stepId) || !Present(imageUrl) then (t, UploadMissingFields)
    else if !upsertOk then (t, StepRecordFailed)
    else
      var key := (motorId.value, stepId.value);
      var u := UpsertKey(t, key);
      if !insertOk then (u, PhotoInsertFailed)
      else
        assert u.motorSteps[key].id in RowIds(u);
        (u.(stepPhotos := u.stepPhotos + [PhotoRow(u.motorSteps[key].id, imageUrl.value)]), PhotoSaved)
  }

  /** The complete-step handler on the tables: the new tables and the outcome. */
  function Complete(t: Tables, motorId: Option<string>, stepId: Option<string>, technicianId: Option<string>,
                        now: string, upsertOk: bool, logOk: bool): (r: (Tables, CompleteResult))
    ensures r.1 == CompleteMissingFields <==> !(Present(motorId) && Present(stepId) && Present(technicianId))
    ensures r.1 == CompletionFailed <==> Present(motorId) && Present(stepId) && Present(technicianId) && !upsertOk
    ensures r.1 != StepCompleted ==> r.0 == t
    ensures r.0.stepPhotos == t.stepPhotos
    ensures r.1 == StepCompleted ==>
      var key := (motorId.value, stepId.value);
      && key in r.0.motorSteps
      && r.0.motorSteps[key].completed
      && r.0.motorSteps[key].completedAt == Some(now)
      && r.0.motorSteps[key].technicianId == Some(technicianId.value)
      && (key in t.motorSteps ==> r.0.motorSteps[key].id == t.motorSteps[key].id && r.0.nextId == t.nextId)
      && (forall k :: k != key ==> SameRow(t, r.0, k))
      && r.0.logs == t.logs + (if logOk then [LogRow(motorId.value, LogAction(stepId.value), technicianId.value)] else [])
    ensures WellFormed(t) ==> WellFormed(r.0)
  {
    if !Present(motorId) || !Present(stepId) || !Present(technicianId) then (t, CompleteMissingFields)
    else if !upsertOk then (t, CompletionFailed)
    else
      var key := (motorId.value, stepId.value);
      var u := UpsertCompleted(t, key, now, technicianId.value);
      var entry := LogRow(motorId.value, LogAction(stepId.value), technicianId.value);
      (u.(logs := if logOk then u.logs + [entry] else u.logs), StepCompleted)
  }

  // ---------------------------------------------------------------- properties

  /** A saved photo references the row of its own (motor, step) pair and of no other pair. */
  lemma PhotoReferencesItsPair(t: Tables, m: string, s: string, url: string)
    requires WellFormed(t) && m != "" && s != "" && url != ""
    ensures var r := Attach(t, Some(m), Some(s), Some(url), true, true);
      var p := r.0.stepPhotos[|r.0.stepPhotos| - 1];
      && r.1 == PhotoSaved
      && p.imageUrl == url
      && forall k :: k in r.0.motorSteps ==> (r.0.motorSteps[k].id == p.motorStepId <==> k == (m, s))
  {
  }

  /**
   * Attaching the same URL twice appends two equal photo rows and leaves the
   * pair with the one row the first call produced.
   */
  lemma AttachTwiceSameUrl(t: Tables, m: string, s: string, url: string)
    requires m != "" && s != "" && url != ""
    ensures var r1 := Attach(t, Some(m), Some(s), Some(url), true, true);
      var r2 := Attach(r1.0, Some(m), Some(s), Some(url), true, true);
      var p := PhotoRow(r1.0.motorSteps[(m, s)].id, url);
      && r2.1 == PhotoSaved
      && r2.0.motorSteps == r1.0.motorSteps
      && r2.0.nextId == r1.0.nextId
      && r2.0.stepPhotos == t.stepPhotos + [p, p]
  {
  }

  /** A failed photo insert keeps the upserted row: the two writes are not atomic. */
  lemma FailedInsertKeepsRow(t: Tables, m: string, s: string, url: string)
    requires m != "" && s != "" && url != "" && (m, s) !in t.motorSteps
    ensures var r := Attach(t, Some(m), Some(s), Some(url), true, false);
      && UploadStatus(r.1) == 500
      && (m, s) in r.0.motorSteps && r.0 != t
      && r.0.stepPhotos == t.stepPhotos
  {
  }

  /** Completing twice keeps one row; the second call's time and technician win. */
  lemma CompleteTwiceLastWins(t: Tables, m: string, s: string, tech1: string, tech2: string, now1: string, now2: string)
    requires m != "" && s != "" && tech1 != "" && tech2 != ""
    ensures var r1 := Complete(t, Some(m), Some(s), Some(tech1), now1, true, true);
      var r2 := Complete(r1.0, Some(m), Some(s), Some(tech2), now2, true, true);
      && r2.1 == StepCompleted
      && r2.0.motorSteps.Keys == r1.0.motorSteps.Keys
      && r2.0.motorSteps[(m, s)] == MotorStepRow(r1.0.motorSteps[(m, s)].id, true, Some(now2), Some(tech2))
      && r2.0.logs == t.logs + [LogRow(m, LogAction(s), tech1), LogRow(m, LogAction(s), tech2)]
  {
  }

  /**
   * Whether completion succeeds does not depend on the tables at all: not on
   * the photos of the pair, not on the other steps, not on an earlier completion.
   */
  lemma CompletionIgnoresStoreState(t: Tables, u: Tables, m: Option<string>, s: Option<string>, tech: Option<string>,
                                    now: string, upsertOk: bool, logOk: bool)
    ensures Complete(t, m, s, tech, now, upsertOk, logOk).1 == Complete(u, m, s, tech, now, upsertOk, logOk).1
  {
  }

  /** The log outcome never changes the response: 200 whether or not the log row was written. */
  lemma LogFailureStillSucceeds(t: Tables, m: string, s: string, tech: string, now: string)
    requires m != "" && s != "" && tech != ""
    ensures var ok := Complete(t, Some(m), Some(s), Some(tech), now, true, true);
      var lost := Complete(t, Some(m), Some(s), Some(tech), now, true, false);
      && CompleteStatus(ok.1) == CompleteStatus(lost.1) == 200
      && ok.0.motorSteps == lost.0.motorSteps
      && lost.0.logs == t.logs
  {
  }

  /** A photo attached after completion leaves the completion fields as they were. */
  lemma AttachAfterCompleteKeepsCompletion(t: Tables, m: string, s: string, tech: string, now: string, url: string,
                                           insertOk: bool)
    requires m != "" && s != "" && tech != "" && url != ""
    ensures var c := Complete(t, Some(m), Some(s), Some(tech), now, true, true);
      var a := Attach(c.0, Some(m), Some(s), Some(url), true, insertOk);
      && a.0.motorSteps[(m, s)] == c.0.motorSteps[(m, s)]
      && a.0.motorSteps[(m, s)].completed
      && a.0.motorSteps[(m, s)].completedAt == Some(now)
  {
  }

  /** Completing after attaching marks the very row the photo references; the photo stays. */
  lemma CompleteAfterAttachMarksPhotoRow(t: Tables, m: string, s: string, tech: string, now: string, url: string)
    requires m != "" && s != "" && tech != "" && url != ""
    ensures var a := Attach(t, Some(m), Some(s), Some(url), true, true);
      var c := Complete(a.0, Some(m), Some(s), Some(tech), now, true, true);
      var p := c.0.stepPhotos[|c.0.stepPhotos| - 1];
      && p == PhotoRow(c.0.motorSteps[(m, s)].id, url)
      && c.0.motorSteps[(m, s)].completed
  {
  }

  /** The store as the handlers share it: one field per table, plus the id counter. */
  class Store {
    var motorSteps: map<StepKey, MotorStepRow>
    var stepPhotos: seq<PhotoRow>
    var logs: seq<LogRow>
    var nextId: RowId

    function State(): Tables
      reads this
    {
      Tables(motorSteps, stepPhotos, logs, nextId)
    }

    ghost predicate Valid()
      reads this
    {
      WellFormed(State())
    }

    constructor ()
      ensures Valid() && State() == EmptyTables
    {
      motorSteps, stepPhotos, logs, nextId := map[], [], [], 1;
    }

    method UploadPhoto(motorId: Option<string>, stepId: Option<string>, imageUrl: Option<string>,
                       upsertOk: bool, insertOk: bool) returns (result: UploadResult)
      requires Valid()
      modifies this
      ensures (State(), result) == Attach(old(State()), motorId, stepId, imageUrl, upsertOk, insertOk)
      ensures Valid()
    {
      if !Present(motorId) || !Present(stepId) || !Present(imageUrl) {
        return UploadMissingFields;
      }
      if !upsertOk {
        return StepRecordFailed;
      }
      var key := (motorId.value, stepId.value);
      if key !in motorSteps {
        motorSteps := motorSteps[key := MotorStepRow(nextId, false, None, None)];
        nextId := nextId + 1;
      }
      var motorStepId := motorSteps[key].id;
      if !insertOk {
        return PhotoInsertFailed;
      }
      stepPhotos := stepPhotos + [PhotoRow(motorStepId, imageUrl.value)];
      return PhotoSaved;
    }

    method CompleteStep(motorId: Option<string>, stepId: Option<string>, technicianId: Option<string>,
                        now: string, upsertOk: bool, logOk: bool) returns (result: CompleteResult)
      requires Valid()
      modifies this
      ensures (State(), result) == Complete(old(State()), motorId, stepId, technicianId, now, upsertOk, logOk)
      ensures Valid()
    {
      if !Present(motorId) || !Present(stepId) || !Present(technicianId) {
        return CompleteMissingFields;
      }
      if !upsertOk {
        return CompletionFailed;
      }
      var key := (motorId.value, stepId.value);
      if key in motorSteps {
        var row := motorSteps[key];
        motorSteps := motorSteps[key := row.(completed := true, completedAt := Some(now), technicianId := Some(technicianId.value))];
      } else {
        motorSteps := motorSteps[key := MotorStepRow(nextId, true, Some(now), Some(technicianId.value))];
        nextId := nextId + 1;
      }
      if logOk {
        logs := logs + [LogRow(motorId.value, LogAction(stepId.value), technicianId.value)];
      }
      return StepCompleted;
    }
  }
}
