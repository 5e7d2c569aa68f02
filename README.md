# Motor maintenance step tracking — Dafny model

This project models the server side of a shipyard's electric-motor
maintenance tracker. Technicians log in by phone and password. They attach
photos to the steps of a fixed maintenance checklist and mark steps
complete. Each motor's progress can be viewed, and a maintenance report is
produced from the recorded steps.

The model covers five route handlers:

- **`motor/upload-photo`** and **`motor/complete-step`** (module
  `StepStore`). These are the two writes to the shared tables. `motor_steps`
  is unique on the pair (motor_id, step_id), so it is a map from that pair.
  `step_photos` and `logs` are append-only sequences. The pure functions
  `Attach` and `Complete` give each handler's effect on a `Tables` value.
  The class `Store` holds the tables as fields; its methods `UploadPhoto`
  and `CompleteStep` update them step by step and are proved equal to the
  pure functions. The lemmas are stated on the pure functions.
- **`motor/get`** (module `MotorView`). Each catalog step is joined with the
  first embedded `motor_steps` record, and defaults fill in when there is
  none. The steps query does not filter by motor, so the model takes it as
  an input that does not depend on the motor id.
  `StepsDoNotDependOnMotor` states the result: two motors get the same
  step list.
- **`report/generate`** (module `Report`). There is one report row per
  `motor_steps` record. `completed` comes from `completed_at`, and
  `'Bilinmiyor'` stands in for a missing technician name. The rows are
  sorted stably by `step_order`. The page content is then derived: the
  timeline of completed steps, the photo section, and the work-order number.
- **`login/technician`** (module `TechnicianLogin`). The phone number is
  looked up with `.single()`, and the password is compared with the stored
  `password_hash` by plain string equality.

Modelling choices:

- The database and the clock are inputs. A lookup by id is a function from
  the id to an optional row: `None` stands for both a query error and no
  row, which the handlers treat the same way. A write's failure is a
  boolean input (`upsertOk`, `insertOk`, `logOk`). `new Date().toISOString()`
  is the string `now`.
- A request field fails the handlers' `!x` test when it is absent, null or
  `""`. The model represents each field as `Option<string>` and tests it
  with `Present`.
- The source never shows how the database makes `motor_steps` row ids. The
  client types them as strings. The model stands in a counter that starts
  at 1 and gives each newly created row the next value. With this counter,
  `motorStep.id || null` in `motor/get` would map 0 to null, but the counter
  never gives out 0. The counter advances only when a row is created. A
  database sequence behind an insert-or-update might also advance on a
  conflict; the model does not capture that.
- JavaScript's `Array.prototype.sort` is stable. `Report.SortByOrder` is a
  stable insertion sort, and `SortByOrderStable` proves the stability.
- The handlers do not enforce step order, there is no required-photo gate,
  completing an already-completed step is not a no-op, and no handler
  computes a "current step". The model follows the handlers, not that
  idealised workflow. Completion therefore overwrites the time and the
  technician (`CompleteTwiceLastWins`), and it succeeds whatever the store
  holds (`CompletionIgnoresStoreState`).

## Model

| member | source | states |
|---|---|---|
| StepStore.UpsertKey | app/api/motor/upload-photo/route.ts:16-20 | after the upsert on (motor_id, step_id) the pair has a row; an existing row is returned unchanged, a new one has the column defaults and the id counter's next value; other pairs, photos and logs are untouched; well-formedness (distinct ids, photos reference rows) is kept |
| StepStore.UpsertCompleted | app/api/motor/complete-step/route.ts:13-21 | after the upsert the pair's row is completed with `completed_at = now` and the given technician; an existing row keeps its id and the model's id counter does not advance; other pairs, photos and logs are untouched; well-formedness is kept |
| StepStore.Attach | app/api/motor/upload-photo/route.ts:8-40 | 400 exactly when a field is missing and 500 exactly when the upsert fails, both leaving the tables unchanged; 500 exactly when the upsert succeeds and the photo insert fails, and 200 exactly when both succeed; in those two cases the pair has one row, an existing row is kept with its completion fields and the id counter does not advance, other pairs are unchanged, and the photo list grows by exactly the one row `(pair's id, imageUrl)` on 200 and stays the same on the insert failure (the upserted row remains); logs never change; well-formedness is kept |
| StepStore.Complete | app/api/motor/complete-step/route.ts:6-35 | 400 exactly when a field is missing, 500 exactly when the upsert fails, both with no write and no log; on success the pair's row is completed with `now` and the technician, keeps its id if it existed, other pairs and all photos are unchanged, and one log row `"Adım Tamamlandı: step_id=" + stepId` is appended exactly when the log insert succeeds |
| StepStore.Store.UploadPhoto | app/api/motor/upload-photo/route.ts:5-45 | the in-place update of the three table fields, with early returns, leaves exactly the tables and outcome that `Attach` gives, and keeps the store valid |
| StepStore.Store.CompleteStep | app/api/motor/complete-step/route.ts:5-40 | the in-place update of the table fields leaves exactly the tables and outcome that `Complete` gives, and keeps the store valid |
| StepStore.PhotoReferencesItsPair | app/api/motor/upload-photo/route.ts:16-34 | a saved photo carries the URL and references the row of its own (motor, step) pair and of no other pair |
| StepStore.AttachTwiceSameUrl | app/api/motor/upload-photo/route.ts:16-34 | attaching the same URL twice appends two equal photo rows; there is no de-duplication, and the pair keeps the single row of the first call |
| StepStore.FailedInsertKeepsRow | app/api/motor/upload-photo/route.ts:29-38 | when the photo insert fails the answer is 500, yet the newly upserted row remains and no photo is added: the two writes are not atomic |
| StepStore.CompleteTwiceLastWins | app/api/motor/complete-step/route.ts:13-33 | a repeated completion creates no second row; the row keeps its id, takes the second call's time and technician, and each call appends its own log row |
| StepStore.CompletionIgnoresStoreState | app/api/motor/complete-step/route.ts:13-21 | whether completion succeeds depends only on the request and the database's answers, never on the stored photos, other steps or an earlier completion |
| StepStore.LogFailureStillSucceeds | app/api/motor/complete-step/route.ts:27-35 | a failed log insert still answers 200 with the same step rows; only the log row is missing |
| StepStore.AttachAfterCompleteKeepsCompletion | app/api/motor/upload-photo/route.ts:16-20 | attaching a photo to a completed step leaves its completion flag, time and technician as they were |
| StepStore.CompleteAfterAttachMarksPhotoRow | app/api/motor/complete-step/route.ts:13-21 | completing after attaching marks the very row the photo references, and the photo stays |
| MotorView.Unstarted | app/api/motor/get/route.ts:42-48 | with no record a step gets `completed = false`, `completed_at = null`, `motor_step_id = null` and no photos, and keeps its catalog columns |
| MotorView.JoinStep | app/api/motor/get/route.ts:41-51 | the output step keeps the catalog columns and drops `motor_steps`; with a record it takes `completed` (null as false), `completed_at` (empty as null), the id (0 as null) and the photos (missing as empty) from the first record; with none it is `Unstarted` |
| MotorView.JoinSteps | app/api/motor/get/route.ts:41-51 | one output step per catalog step, at the same position, each the join of that step |
| MotorView.JoinStepsKeepsCatalog | app/api/motor/get/route.ts:35-51 | the output has the catalog's length, its columns and its order; steps ordered ascending by `step_order` stay so |
| MotorView.Get | app/api/motor/get/route.ts:5-60 | 400 exactly when the id is missing, 404 exactly when the motor lookup fails, 500 exactly when the steps query fails; otherwise the motor's name, kw, rpm and notes, `ship_name` from `ships?.name`, and the joined steps |
| MotorView.StepsDoNotDependOnMotor | app/api/motor/get/route.ts:24-42 | two different motors get the same steps from the same steps query, because the embedded records are not filtered by motor |
| Report.TechnicianName | app/api/report/generate/route.ts:220 | the technician's name when present and non-empty, otherwise `'Bilinmiyor'`; never empty |
| Report.ToReportStep | app/api/report/generate/route.ts:217-222 | a row carries the step's id, name and order and the record's `completed_at`; `completed` holds exactly when `completed_at` is truthy; photos are the embedded list or empty |
| Report.ToReportSteps | app/api/report/generate/route.ts:217-222 | one row per record, at the same position, and every row has `completed` exactly when `completed_at` is truthy |
| Report.InsertByOrder | app/api/report/generate/route.ts:223 | inserting adds exactly the one element, as a multiset |
| Report.InsertByOrderSorted | app/api/report/generate/route.ts:223 | inserting into a list sorted by `step_order` keeps it sorted |
| Report.SortByOrder | app/api/report/generate/route.ts:223 | the result is sorted non-decreasing by `step_order` and is a permutation of the input |
| Report.InsertByOrderStable | app/api/report/generate/route.ts:223 | insertion places the new element before the other entries of its own `step_order` and moves no other entry of that order |
| Report.SortByOrderStable | app/api/report/generate/route.ts:223 | for every `step_order`, its entries appear in the same relative order as in the input, so the sort is stable |
| Report.BuildReportData | app/api/report/generate/route.ts:210-224 | the motor fields are carried over with `ship_name` from `ships?.name`; the steps are exactly the mapped records, one per record, as a permutation, sorted by `step_order` |
| Report.CompletedSteps | app/api/report/generate/route.ts:106 | the timeline is the order-preserving subsequence of the steps with `completed` set: all of them, each as often as it occurs, and nothing else; sorted input gives a sorted timeline |
| Report.PhotoSection | app/api/report/generate/route.ts:152 | the photo section is the order-preserving subsequence of the timeline's steps with a non-empty photo list, all of them and nothing else |
| Report.WorkOrderNumber | app/api/report/generate/route.ts:116 | the header shows the first `min(8, |motor_id|)` characters of the motor id, a prefix of it |
| Report.BuildDocument | app/api/report/generate/route.ts:104-166 | the page shows the work-order number, ship, motor, kw and rpm, a notes line only when notes are truthy, the completed-step timeline, and the photo section drawn from that timeline |
| Report.Generate | app/api/report/generate/route.ts:180-224 | 400 exactly when the id is missing, 404 exactly when the motor lookup for that id fails, and otherwise the report data and document built from the looked-up motor |
| Report.MissingIdIgnoresLookup | app/api/report/generate/route.ts:184-186 | with a missing id the answer is 400 whatever the database holds: no lookup influences it |
| Report.TimelineIsCompletedRecords | app/api/report/generate/route.ts:217-223 | the timeline holds exactly the records whose `completed_at` is truthy, each once per record, ordered by `step_order` and not by completion time |
| Report.NothingCompletedGivesEmptyReport | app/api/report/generate/route.ts:205-224 | a motor with no completed record still gets a rendered report, with an empty timeline and an empty photo section, not an error |
| Report.PhotoSectionWithinTimeline | app/api/report/generate/route.ts:152 | the photo section is a subsequence of both the timeline and the full step list, and is sorted by `step_order` |
| TechnicianLogin.SingleByPhone | app/api/login/technician/route.ts:13-17 | `.single()` gives a row exactly when the query succeeds and exactly one row has that phone; the row is from the table and has that phone |
| TechnicianLogin.Login | app/api/login/technician/route.ts:5-33 | 400 exactly when phone or password is missing; 401 "Kullanıcı bulunamadı." exactly when there is no single row; success exactly when the password equals the stored `password_hash`, returning that row's id and name; otherwise 401 "Şifre yanlış." |
| TechnicianLogin.LoggedInIsTheUniqueRow | app/api/login/technician/route.ts:13-29 | a successful login names a technician row with that phone whose `password_hash` is the submitted password, and that row is the only one with the phone |
| TechnicianLogin.AtMostOnePasswordAccepted | app/api/login/technician/route.ts:24-32 | for a given phone and table, two accepted passwords are equal |
| TechnicianLogin.DuplicatePhoneNotFound | app/api/login/technician/route.ts:13-21 | when two rows share a phone, `.single()` fails and every login with that phone is "user not found", whatever the password |
| TechnicianLogin.StatusCodes | app/api/login/technician/route.ts:8-32 | each outcome has the status the handler sends: 400 for missing credentials, 401 for an unknown user or a wrong password, 200 for success; an unknown user and a wrong password share the status 401 and differ only in the message |

The login check is a pure function of the request and the `technicians`
table. It has no store to change, so it is read-only on every path.

## Left out

- PDF rendering is not modelled: fonts, styles, the page layout, `renderToStream`, the buffer and the response headers. `Report.BuildDocument` models only the content that is handed to the renderer.
- The 500 answer when rendering throws (report/generate lines 241-244) is not modelled, because rendering is not modelled.
- Date formatting with `toLocaleString('tr-TR', …)` is not modelled. It is locale-dependent library behaviour, so `completed_at` is kept as an opaque string.
- The Supabase client and PostgREST's join semantics are not modelled. Each query result is an input. One consequence: the database drops catalog steps with no `motor_steps` row at all, because of `motor_steps!inner` in motor/get. The model accepts any steps query, so it also covers `JoinStep`'s no-record branch.
- Exceptions thrown inside the handlers' `try` blocks, such as a dropped connection, are not modelled. These answer 500. The explicit error returns are modelled through the injected failure flags.
- A request body that is not valid JSON is not modelled. In the handlers, `request.json()` sits outside the `try`.
- Non-string request field values are not modelled. Fields are optional strings, and the log action interpolates `stepId` as a string.
- Response messages are modelled only for the login check. The other handlers are modelled by their outcomes and status codes.
- The `data` field of the complete-step response is not modelled. The upsert has no `.select()`, so that field is null.
- How the database makes row ids is not modelled. A counter stands in for it: ids are positive integers and advance only when a row is created, not on a conflicting insert-or-update.
- Concurrent requests are not modelled. In particular, two upserts that race on the same pair are out of scope; only sequential composition of the handlers is modelled.
- Column defaults for a row created by upload-photo are an assumption: not completed, with null time and null technician. The table schema is not part of this model.
- Report.ToReportStep: a record whose embedded `maintenance_steps` is null is not modelled. The spread and the sort comparator would then meet `undefined` and `NaN`.
- Report.WorkOrderNumber: counts Unicode characters. JavaScript's `substring` counts UTF-16 code units, so the two differ only for characters outside the Basic Multilingual Plane.
- Authentication configuration (NextAuth options, middleware, session types) is not part of this model.
- The client pages and layouts, including the step page that computes a current-step index on the client, are not part of this model.
