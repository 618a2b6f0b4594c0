# Face-recognition attendance: recognition-to-attendance pipeline

A Dafny model of the core of a CCTV face-recognition attendance system. A camera
client submits a face image (`imageData`) and a camera id (`cctvId`), either over
a socket (`face-detected`) or to `POST /api/face-recognition`. The handler:

1. loads the active employees (`karyawan`) that have a face photo;
2. scores the probe against each of them and keeps the best score strictly above
   0.7, skipping candidates whose comparison fails;
3. classifies the submission by time of day: before 07:30 is `masuk` (check-in),
   anything else is `pulang` (check-out);
4. rejects the submission if the employee already has an attendance row
   (`absensi`) of that type between today 00:00 and tomorrow 00:00;
5. otherwise appends one row and, on the socket path, broadcasts it to every
   connected client before answering the submitter.

Beside it sit three check-then-insert handlers and one pure function:

- `POST /api/absensi` uses the same per-day key;
- `POST /api/karyawan` keys employees on NIK and on email;
- `POST /api/cctv` keys cameras on IP address;
- the dashboard derives each employee's status (complete, present, absent) and
  the check-in and check-out cells of their row.

Modules, one per source file or component:

- `Schema` (`schema.dfy`): rows, response payloads, and the database as a class
  `Db` with three `seq` tables that the handlers append to.
- `Matching` (`matching.dfy`): the best-match reduction.
  - `Best` is a recursive reference definition.
  - `IsOutcome` describes the answer independently: the maximum score above 0.7,
    earliest index on ties.
  - `FindBest` is the source's loop, proved equal to `Best`.
- `Schedule` (`schedule.dfy`): the time classifier.
- `Ledger` (`ledger.dfy`): the per-day key `(karyawanId, tipeAbsen, day)`, the
  invariant "at most one row per key" and the lemmas showing that the duplicate
  check is exactly what keeps it.
- `Registry` (`registry.dfy`): the same for NIK/email and for IP.
- `AbsensiRoute`, `KaryawanRoute`, `CctvRoute`, `FaceRecognitionRoute`: the POST
  handlers, as methods over a `Db`. Each one preserves its table's key invariant
  whenever the table held it before, so any sequential series of these POSTs
  keeps it. The PUT handlers of `/api/karyawan/[id]` and `/api/cctv/[id]`
  rewrite NIK, email and IP without a check and are not part of this model.
- `SocketHandler` (`socket_handler.dfy`): the `face-detected` handler. A `Hub`
  object records every emission in order. Its contract ties broadcasts to ledger
  appends one for one.
- `Dashboard` (`dashboard.dfy`): `getAttendanceStatus` and the row cells.

Inputs that come from outside the code are parameters:

- the comparison score of each candidate is an `Option<real>`, with `None` when
  the call threw;
- the local hour and minute, and the calendar day as an integer;
- whether `db.*.create` throws (`createFails`);
- the generated id and the `isActive` column default of a new employee or camera.

Where the code and the intended design of the system differ, the model follows
the code:

- A duplicate on the recognition route answers HTTP 200 with `success: false`.
  `POST /api/absensi` answers 400 for the same condition.
- The duplicate check is a read followed by a separate insert, not an atomic
  conditional write.
- The socket handler does not validate its input.
- The socket handler's "no employees" reply carries no `confidence` field.
- The 16:00 `eveningTime` constant is computed and never used.
- No camera lookup takes place: `cctvId` is copied into the row as given.

## Model

| member | source | states |
|---|---|---|
| `Matching.ActiveWithFace` | src/lib/socket.ts:13-20 | the candidates are exactly the stored employees that are active and have a face photo |
| `Matching.Best` | src/lib/socket.ts:37-70 | a match names an existing candidate whose obtained score it carries, and that score is strictly above 0.7 |
| `Matching.BestIsOutcome` | src/lib/socket.ts:37-70 | `Best` is the maximum obtained score strictly above 0.7; among equal top scores the earliest candidate wins; no match exactly when no obtained score clears 0.7 |
| `Matching.OutcomeUnique` | src/app/api/face-recognition/route.ts:41-74 | at most one outcome meets that description, so the reduction is deterministic |
| `Matching.FindBest` | src/app/api/face-recognition/route.ts:37-74 | the loop starting from (none, 0) that skips failed comparisons and replaces the best only on `> highest && > 0.7` returns exactly `Best(scores)`; confidence 0 when nothing matched |
| `Matching.ThresholdIsExclusive` | src/lib/socket.ts:62 | when no obtained score is above 0.7 (a score of exactly 0.7 included) there is no match |
| `Matching.FailureIsSkipped` | src/lib/socket.ts:66-69 | a failed comparison anywhere in the list never wins and changes neither whether there is a match, nor the winning candidate (index shifted past the removed slot), nor the winning score |
| `Schedule.Classify` | src/lib/socket.ts:82-87 | `masuk` exactly when the time is before 07:30, `pulang` otherwise; the 16:00 constant has no effect |
| `Schedule.ClassifyMonotone` | src/app/api/face-recognition/route.ts:85-90 | once a time of day is `pulang`, every later time is `pulang` too: a single cut-off, no evening window |
| `Ledger.HasAttendance` | src/app/api/absensi/route.ts:37-46 | the `findFirst` duplicate lookup: some row has the employee, the type and a timestamp in [today 00:00, tomorrow 00:00); the route contracts and the lemmas below are stated in it |
| `Ledger.AppendKeepsOnePerKey` | src/app/api/absensi/route.ts:31-67 | appending a row keeps at most one row per (employee, type, day) exactly when the duplicate lookup finds nothing |
| `Ledger.OtherKeysUnaffected` | src/app/api/absensi/route.ts:37-46 | a row of another employee, type or day neither creates nor removes a duplicate for a key |
| `Ledger.WrittenKeyBlocks` | src/lib/socket.ts:95-114 | after a row is written, the duplicate lookup for its key succeeds, so a later submission for that key is rejected |
| `Registry.NikOrEmailTaken` | src/app/api/karyawan/route.ts:28-35 | the `findFirst` with `OR: [{ nik }, { email }]`: some employee has the NIK or the email; used by `KaryawanRoute.Post` and `AppendEmployeeKeepsKeys` |
| `Registry.IpTaken` | src/app/api/cctv/route.ts:28-30 | the `findFirst` with `{ ip }`: some camera has the IP; used by `CctvRoute.Post` and `AppendCameraKeepsIps` |
| `Registry.AppendEmployeeKeepsKeys` | src/app/api/karyawan/route.ts:28-53 | appending an employee keeps NIKs and emails pairwise distinct exactly when neither its NIK nor its email is taken |
| `Registry.AppendCameraKeepsIps` | src/app/api/cctv/route.ts:28-48 | appending a camera keeps IPs pairwise distinct exactly when its IP is not taken |
| `Schema.Db.CreateAbsensi` | src/app/api/absensi/route.ts:55-67 | the attendance table gains exactly the given row at its end |
| `Schema.Db.CreateKaryawan` | src/app/api/karyawan/route.ts:44-53 | the employee table gains exactly the given row at its end |
| `Schema.Db.CreateCctv` | src/app/api/cctv/route.ts:39-48 | the camera table gains exactly the given row at its end |
| `AbsensiRoute.Post` | src/app/api/absensi/route.ts:26-77 | a duplicate key for today gives 400 with the table unchanged; a failing create gives 500 unchanged; otherwise exactly the supplied row, stamped today, is appended and returned with 201; `tipeAbsen` is not validated; at most one row per key is preserved |
| `KaryawanRoute.Post` | src/app/api/karyawan/route.ts:22-63 | a taken NIK or email gives 400 with the registry unchanged; otherwise exactly the supplied employee is appended and returned with 201; NIK and email distinctness is preserved; only NIK and email are checked |
| `CctvRoute.Post` | src/app/api/cctv/route.ts:22-58 | a taken IP gives 400 with the registry unchanged; otherwise exactly the supplied camera is appended and returned with 201; IP distinctness is preserved |
| `FaceRecognitionRoute.Present` | src/app/api/face-recognition/route.ts:10 | a body field passes the `!field` test when it is present and not the empty string; the route's 400 clause is stated in it |
| `FaceRecognitionRoute.Post` | src/app/api/face-recognition/route.ts:5-148 | missing or empty fields give 400 before anything else, no candidates give 404, no match gives `success:false` with confidence 0, a duplicate gives `success:false` with status 200, a failing create gives 500; each leaves the table unchanged; otherwise one row (winner, camera, classified type, winning score, image, today) is appended and echoed with `success:true` |
| `SocketHandler.OnFaceDetected` | src/lib/socket.ts:10-152 | the same matching, classification and duplicate outcomes as the HTTP route, but no input validation, "No active employees found" and every failure as `success:false` replies with no status; the reply goes to the submitter last; a row is appended exactly when the reply is `success:true`, and then a `new-attendance` broadcast carrying that row precedes the reply; the broadcast history grows by exactly the appended rows |
| `SocketHandler.Broadcasts` | src/lib/socket.ts:131-135 | the rows sent to all clients by `io.emit('attendance-update', …)`, in emission order, one per broadcast; each is the data of an `attendance-update` emission in the log; `OnFaceDetected` ties its growth to the rows appended |
| `SocketHandler.Hub.BroadcastNewAttendance` | src/lib/socket.ts:131-135 | the emission log gains one `attendance-update` of type `new-attendance` carrying the row |
| `SocketHandler.Hub.Reply` | src/lib/socket.ts:137-143 | the emission log gains one `face-recognition-result` carrying the payload |
| `Dashboard.TodayRecords` | src/app/page.tsx:87-90 | the filtered list holds exactly the rows of that employee dated today |
| `Dashboard.FindType` | src/app/page.tsx:275-276 | `find` returns the first row of the requested type in list order (it sits at an index with no earlier row of that type), and nothing exactly when `some` is false |
| `Dashboard.HasTypeOfToday` | src/app/page.tsx:87-93 | the dashboard's filter-then-`some` test agrees with the ledger's (employee, type, day) lookup |
| `Dashboard.AttendanceStatus` | src/app/page.tsx:85-98 | `getAttendanceStatus`: complete iff the employee has both a `masuk` and a `pulang` row today; present iff `masuk` without `pulang`; absent iff no `masuk` (a `pulang` alone is absent); stated through the ledger's (employee, type, day) lookup, so other employees' rows and other days play no part |
| `Dashboard.RowCells` | src/app/page.tsx:269-276 | each cell is the first row in list order with that employee, type and day, or none ('-'); proved through `CellIsFirstMatch` and related to the status by `RowAgreesWithStatus` |
| `Dashboard.RowAgreesWithStatus` | src/app/page.tsx:269-285 | the check-in cell is filled iff the status is not absent; both cells are filled iff the status is complete |
| `Dashboard.FirstMatchIsFirst` | src/app/page.tsx:271-276 | the first row with a given employee, type and day: nothing exactly when the ledger's lookup finds no such row, otherwise the row at the earliest index carrying that key |
| `Dashboard.CellIsFirstMatch` | src/app/page.tsx:271-276 | each cell shows the first row in list order with that employee, type and day, or '-' when there is none |
| `Dashboard.CheckInShows` | src/app/page.tsx:92-96 | once a `masuk` row is appended for an employee, that employee is present or complete on that day |

## Left out

- The face comparison (`zai.chat.completions.create` and `parseFloat` of its reply) is not modelled. Each candidate's score is an input.
  - `None` stands for a call that threw.
  - A reply that parses to `NaN` fails both comparisons in the source, so `None` covers it as well.
  - Scores are not constrained to [0, 1], because the source does not check them.
- Only the throwing `create` call is modelled as a failure (`createFails`). A throwing `findMany`, `findFirst`, `ZAI.create` or `request.json()` also ends in the generic failure (500, or the "Failed to process face recognition" reply), with nothing written or broadcast.
- Concurrency is not modelled. The duplicate check is a read followed by a separate insert, so two simultaneous submissions for the same key can both write. The model is sequential and proves the per-key invariant only for sequential requests.
- `Date` arithmetic, time zones and time formatting are not modelled. The hour, the minute and the calendar day are inputs, and a row keeps only its calendar day.
- Generated row ids are not modelled. `Record` has no id.
- The `include: { karyawan, cctv }` join is not modelled. The returned and broadcast row carries no employee or camera snapshot.
- Foreign keys are not modelled. The database schema is not part of this model, so whether `cctvId` or `karyawanId` must name an existing row, with `create` failing otherwise, is left to `createFails`.
- Candidate order is not modelled. The candidate query has no `orderBy`, so the database may return the candidates in any order. The model takes table order (`Matching.ActiveWithFace`), so the earliest-index tie-break in `FaceRecognitionRoute.Post` and `SocketHandler.OnFaceDetected` picks the earliest tied employee in table order. The source picks the earliest in whatever order the database returns.
- Non-string recognition body fields are not modelled. `imageData` and `cctvId` are `Option<string>`, and `FaceRecognitionRoute.Present` covers only absence and the empty string. The source's `!field` test also rejects `0` and `false`. It also lets through truthy non-strings such as a number, which `create` then refuses with a 500.
- Absent fields in the `absensi`, `karyawan` and `cctv` POST bodies are not modelled. Every field is taken as a given value, including Prisma's treatment of `undefined` filters.
- The socket transport is not modelled: connection and disconnect logging, the `connected` greeting, and the `cctv-status` relay. `io.emit` is a log of emissions; delivery to the clients connected at that moment is not modelled.
- The GET handlers (`/api/absensi`, `/api/absensi/today`, `/api/karyawan`, `/api/cctv`) and their ordering are not modelled. The dashboard functions take the fetched list in the order given.
- The admin page, the dashboard's JSX, polling and fetch code, and the sample-data route are not part of this model.
- `Matching.FindBest` returns the index of the winning candidate where the source keeps the employee object. The handlers look the employee up by that index.
