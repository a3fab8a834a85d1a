# Verified model of the AGHU → Epimed reconciliation scripts

The repository has two batch scripts. Each copies records from the hospital
information system (AGHU) into the intensive-care monitoring database
(Epimed).

- `scripts/verificar_exames.py` runs one job, `verificar_e_enviar_exames`:
  - It reads hospital admissions ("internações"), unit stays ("admissões")
    and laboratory results from AGHU, together with the rows Epimed already
    holds.
  - For each of the three entities it computes the records whose natural key
    is missing from Epimed.
  - It inserts new admissions and stays one statement at a time, with
    `INSERT … ON CONFLICT DO NOTHING`.
  - It renders each new exam as a message and sends it, and inserts the exam
    only when the answer is the HL7 v2 acknowledgement code `AA`
    (Application Accept, HL7 v2.5 chapter 2, table 0008).
  - It records the run in `controle_processamento` (`EM_EXECUCAO`, then
    `SUCESSO` or `ERRO`) and appends an audit row to `log_execucoes`.
- `scripts/verificar_leitos.py` reconciles the bed inventory in two routines:
  - The first inserts the beds Epimed does not know. Each active one is
    first announced with an HL7 v2.5 ORU^R01 message and recorded in
    `log_envio_hl7`.
  - The second finds the beds whose Epimed status differs from the AGHU
    situation and updates them, announcing each change the same way.

The modules follow the scripts:

| file | module | what it holds |
|---|---|---|
| `reconcile.dfy` | `Reconcile` | the engine both scripts share: the keyed difference `NewRecords`, the conflict-ignoring insert `Upsert`, the insert loop `InsertAll` over per-statement outcomes, and their laws |
| `exams.dfy` | `ExamSync` | entities and keys, the AGHU readers with the reference-date filter, exam eligibility and the exam join, the three diffs, the exam message, run control, `RunEffect` (one run as a function), and the class `EpimedDb` whose methods change the tables in place |
| `exam_runs.dfy` | `ExamRuns` | what a run, and two runs in a row, guarantee |
| `ordered_dict.dfy` | `OrderedDict` | Python dictionaries built from query rows (insertion order, last value wins) |
| `bed_message.dfy` | `BedMessage` | the HL7 v2.5 ORU^R01 message of a bed (HL7 v2.5 chapters 2, 2A and 7) and how it splits back into segments and fields |
| `beds.dfy` | `BedSync` | the bed dictionaries, new-bed and status-change detection, the SET-list builder of the status update, the per-bed steps and routines as functions, and the class `BedDb` with the loops |
| `bed_runs.dfy` | `BedRuns` | what the bed routines guarantee |
| `text.dfy`, `clock.dfy`, `wrappers.dfy` | `Text`, `Clock`, `Wrappers` | `join`/`split`/`str(int)`, instants and their `"%Y-%m-%d %H:%M:%S"` and `"%Y%m%d%H%M%S"` forms, and `Option` |

How the model treats what the scripts cannot see:

- Instants are whole seconds since 1970-01-01.
- Database tables are maps keyed by their conflict target, or sequences when
  rows are addressed by position.
- Whether a statement raises is an input: one flag per statement, where a
  missing flag means it succeeds.
- What the transport answers is also an input. Past the end of the given
  answers, the reply is the one a stub sender returns: `"AA"` for exams, as
  `scripts/verificar_exames.py:399-402` does, and `"ACK"` for beds. The bed
  sender of `scripts/verificar_leitos.py:84-180` does not say `"ACK"` as
  written (see "## Left out"); the model takes the evident intent, a stub
  answering `'ACK'`.

Three defects of the scripts are recorded under "## Findings". The model is
written twice where each one occurs: once as the code is written, with a
lemma that exhibits the defect, and once corrected. The routines
(`ExamSync.Detect`, `BedSync.StatusRun`, `BedMessage.Segments`) use the
corrected forms.

Where the scripts' own statements of intent and their code disagree, the
model follows the code:

- `scripts/verificar_exames.py:534` logs the value read as the "last
  successful processing", but `obter_data_ultimo_processamento`
  (`scripts/verificar_exames.py:105-119`) returns `MAX(data_inicio)` over
  every recorded run, including failed ones. `ExamRuns.WatermarkAfterRun`
  proves that a failed run also moves that value forward.
- The admission diff compares (medical record, number, date), but the
  conflict target of `public.internacoes` is the number alone. Every AGHU
  admission whose number is stored with another medical record or date is
  detected as new on every run, and the row under its number is left as it
  was (`ExamRuns.AdmissionRedetected`). No run after a clean one adds an
  admission row (`ExamRuns.RerunAddsNoAdmissions`).
- An exam whose acknowledgement is not `AA` is skipped, not retried within
  the run.

## Model

| member | source | states |
|---|---|---|
| Reconcile.KeySet | scripts/verificar_exames.py:557-560 | the Epimed key set holds the key of every destination row and nothing else |
| Reconcile.NewRecords | scripts/verificar_exames.py:562-566 | a record is in the delta exactly when it is a source record whose key is not in the destination key set; a record differing only in non-key fields is not new; the delta is no longer than the source |
| Reconcile.NewRecordsAppend | scripts/verificar_exames.py:562-566 | the delta keeps source order: the delta of a concatenation is the concatenation of the deltas |
| Reconcile.NewRecordsMultiplicity | scripts/verificar_exames.py:562-566 | duplicates are not collapsed: a record with an unknown key occurs in the delta as often as in the source, any other record never |
| Reconcile.NewRecordsEmpty | scripts/verificar_exames.py:562-566 | the delta is empty if and only if every source key is already known |
| Reconcile.NoDeltaWhenPresent | scripts/verificar_exames.py:557-566 | once every source key is a key of the table, the diff is empty |
| Reconcile.Upsert | scripts/verificar_exames.py:418-424 | `ON CONFLICT … DO NOTHING`: the key set gains the key, every existing row is unchanged, and a fresh key holds the new row |
| Reconcile.Successes | scripts/verificar_exames.py:413-437 | the counter is at most the number of rows, equals it if and only if no statement failed, and is 0 if and only if all failed |
| Reconcile.InsertAllStep | scripts/verificar_exames.py:414-436 | one more loop iteration adds the row when its statement commits and only then, and adds 1 to the counter exactly then |
| Reconcile.InsertAllEffect | scripts/verificar_exames.py:414-436 | after the loop, the keys are the old keys plus those of the rows whose statement committed; no existing row changes |
| Reconcile.InsertAllGated | scripts/verificar_exames.py:414-436 | a key that appears was inserted by a committed statement, and holds the first committed row with that key |
| Reconcile.InsertAllPresent | scripts/verificar_exames.py:424 | rows whose keys are all taken change nothing, whichever statements fail |
| Reconcile.InsertAllIdempotent | scripts/verificar_exames.py:424 | inserting a delta again, after it was inserted once with no failures, leaves the table as the first insertion left it |
| Reconcile.InsertAllNoneOk | scripts/verificar_exames.py:433-436 | when every statement is rolled back, the table is unchanged |
| Reconcile.InsertAllKeyed | scripts/verificar_exames.py:418-430 | a table whose rows sit under their own conflict key stays so after the loop |
| Reconcile.InsertAllGrowth | scripts/verificar_exames.py:414-436 | the table grows by at most the number of committed statements |
| ExamSync.ToStored | scripts/verificar_exames.py:482-505 | the stored exam carries the exam's conflict key (adm_id, idexame, dthrexame) and its cancellation flag |
| ExamSync.ReadAdmissions | scripts/verificar_exames.py:177-205 | the rows are exactly the view rows admitted on or after the reference date, each with the given discharge binding (as written, the dictionary has no discharge key) |
| ExamSync.AghuStays | scripts/verificar_exames.py:242-273 | the stays are exactly those of the view admitted to the unit on or after the reference date |
| ExamSync.ExamJoin | scripts/verificar_exames.py:336-348 | a row is in the join exactly when its stay, admission and result match on admission number and medical record and the result is eligible for that stay |
| ExamSync.ExamJoinEligible | scripts/verificar_exames.py:345-348 | every joined exam has a cancellation flag that is present and not `'S'`, is not older than the reference date, and was created within [unit admission − 4 h, unit admission + 3 h] of its own stay |
| ExamSync.NewAdmissions | scripts/verificar_exames.py:557-566 | an admission is new exactly when its (medical record, number, date) is not among the Epimed keys |
| ExamSync.NewStays | scripts/verificar_exames.py:571-580 | a stay is new exactly when its (number, unit, bed, unit admission) is not among the Epimed keys |
| ExamSync.NewExams | scripts/verificar_exames.py:585-593 | an exam is new exactly when its (adm_id, idexame, dthrexame) is not among the Epimed keys |
| ExamSync.ExamMessageFields | scripts/verificar_exames.py:395-397 | the exam message is the `'\|'`-join of `HL7`, the medical record, the exam id and the exam time; splitting it gives those four parts back if and only if neither the medical record nor the exam id contains `'\|'` |
| ExamSync.ExamMessages | scripts/verificar_exames.py:605-608 | one message per new exam |
| ExamSync.ExamMessagesAt | scripts/verificar_exames.py:395-397 | the i-th message is the four-part message of the i-th new exam |
| ExamSync.AdmissionOutcomes | scripts/verificar_exames.py:414-436 | the statement of admission `i` commits exactly when its discharge can be bound and the database accepts it |
| ExamSync.Commits | scripts/verificar_exames.py:449-470 | the statement of stay `i` commits exactly when the database accepts it |
| ExamSync.ExamOutcomes | scripts/verificar_exames.py:605-619 | exam `i` is stored exactly when its reply is `AA` and its insert commits |
| ExamSync.LatestStart | scripts/verificar_exames.py:107 | `MAX(data_inicio)`: no run started later, and some run started then |
| ExamSync.LastProcessing | scripts/verificar_exames.py:105-109 | the latest start of any run, or 2000-01-01 00:00:00 when there is none |
| ExamSync.Finish | scripts/verificar_exames.py:121-128 | the run row with that id gets the finish time and status and keeps its start; every other row is unchanged |
| ExamSync.EpimedDb.RegisterStart | scripts/verificar_exames.py:111-119 | appends a running row started now and returns its id |
| ExamSync.EpimedDb.RegisterEnd | scripts/verificar_exames.py:121-128 | the run table becomes `Finish` of the old one |
| ExamSync.EpimedDb.InsertAdmissions | scripts/verificar_exames.py:408-437 | the loop leaves the admission table as `InsertAll` over the statements that commit, and returns their number (0 for no rows) |
| ExamSync.EpimedDb.InsertStays | scripts/verificar_exames.py:443-472 | the same for stays |
| ExamSync.EpimedDb.InsertExam | scripts/verificar_exames.py:478-511 | returns whether the statement committed; the exam is upserted exactly then |
| ExamSync.EpimedDb.SendExam | scripts/verificar_exames.py:606-619 | renders the exam's message and inserts the exam only when the reply is `AA` and the insert commits |
| ExamSync.EpimedDb.SendExams | scripts/verificar_exames.py:602-619 | sends one message per new exam, in order, and leaves the exam table as `InsertAll` over the exams stored |
| ExamSync.EpimedDb.ApplyDeltas | scripts/verificar_exames.py:597-619 | the three insert stages, each as specified above |
| ExamSync.EpimedDb.Run | scripts/verificar_exames.py:516-655 | the tables after the routine are `RunEffect` of the tables before |
| ExamRuns.AdmissionLoopEffect | scripts/verificar_exames.py:408-437 | an admission number is in the table afterwards exactly when it was before or a new admission with that number committed; stored admissions keep their content |
| ExamRuns.StayLoopEffect | scripts/verificar_exames.py:443-472 | a stay key is in the table afterwards exactly when it was before or a new stay with that key committed; stored stays keep their content |
| ExamRuns.ExamLoopEffect | scripts/verificar_exames.py:605-619 | an exam key is in the table afterwards exactly when it was before or a new exam with that key got `AA` and committed; stored exams keep their content |
| ExamRuns.RejectingTransportStoresNothing | scripts/verificar_exames.py:610-615 | a transport that never answers `AA` leaves the exam table unchanged |
| ExamRuns.StubTransportStoresAll | scripts/verificar_exames.py:399-402 | with the stub sender and no failing insert, every new exam is stored |
| ExamRuns.RunStatus | scripts/verificar_exames.py:624-646 | a run appends one run row, finished, that is `SUCESSO` if and only if no exception escaped and `ERRO` otherwise. Unless the audit insert fails, it appends one audit row with the same status, the exception message with `ERRO` and no message with `SUCESSO` |
| ExamRuns.AuditCounts | scripts/verificar_exames.py:567-643 | the audit row's three counts are the lengths of the admission, stay and exam deltas detected as new, and all 0 when reading raised |
| ExamRuns.AuditCountsDetected | scripts/verificar_exames.py:567-643 | the audit counts are the detected totals: they do not depend on which statements fail or what the transport answers, and each table grows by at most its count |
| ExamRuns.WatermarkAfterRun | scripts/verificar_exames.py:105-119 | after a run, the value `obter_data_ultimo_processamento` returns is this run's start or the previous value, whichever is later, whatever the run's outcome |
| ExamRuns.RunKeepsConsistent | scripts/verificar_exames.py:418-505 | a run keeps every row of the three tables under its own conflict key |
| ExamRuns.StaysSettle | scripts/verificar_exames.py:571-580 | once the new stays are inserted without failure, the same AGHU stays are no longer new |
| ExamRuns.ExamsSettle | scripts/verificar_exames.py:585-619 | once the new exams are stored, the same AGHU exams are no longer new |
| ExamRuns.RerunDetectsNoStaysOrExams | scripts/verificar_exames.py:516-619 | a second run over the same AGHU data, after a run in which nothing failed, finds no new stay and no new exam |
| ExamRuns.NothingNewChangesNothing | scripts/verificar_exames.py:597-619 | a run that finds no new stay or exam leaves those tables as they are, whatever fails |
| ExamRuns.AdmissionDetected | scripts/verificar_exames.py:557-566 | for a table keyed by number, an AGHU admission is new exactly when the row stored under its number (since the reference) does not have its (medical record, number, date) key |
| ExamRuns.AdmissionRedetected | scripts/verificar_exames.py:557-566 | for every table, AGHU data and run outcome: an AGHU admission whose number is stored with another medical record or date is detected as new, the run leaves the row under that number unchanged, and the next run detects it again |
| ExamRuns.RedetectedNumbersStored | scripts/verificar_exames.py:409-437 | after a clean run, the number of every AGHU admission since the reference is a key of the table |
| ExamRuns.RerunAddsNoAdmissions | scripts/verificar_exames.py:516-619 | a second run over the same AGHU data after a clean run leaves the admission table as the first left it, whatever fails in the second |
| ExamRuns.AsWrittenAdmissionsNeverStored | scripts/verificar_exames.py:429 | as written, every new admission raises `KeyError`: the count is 0 and the table is unchanged |
| ExamRuns.CorrectedAdmissionsStored | scripts/verificar_exames.py:408-437 | with the discharge bound as NULL and no failing statement, every new admission is counted and stored |
| Text.SplitJoin | scripts/verificar_leitos.py:82 | a join of parts free of the separator splits back into exactly those parts |
| Text.JoinFour | scripts/verificar_exames.py:397 | a four-part join splits back into its parts if and only if the inner parts are free of the separator |
| Text.Decimal | scripts/verificar_leitos.py:79 | `str(n)`: decimal digits with no leading zero |
| Text.DecimalRoundTrip | scripts/verificar_leitos.py:79 | reading the printed number back gives the number |
| Clock.DateTimeTextWellFormed | scripts/verificar_leitos.py:328 | `strftime("%Y-%m-%d %H:%M:%S")` yields the form `strptime` accepts, with no separator of the message in it |
| Clock.Hl7Stamp | scripts/verificar_leitos.py:59-72 | a date text becomes exactly 14 digits |
| Clock.StampRoundTrip | scripts/verificar_leitos.py:59-72 | the 14-digit form loses nothing: putting the separators back gives the text |
| Clock.Hl7StampRoundTrip | scripts/verificar_leitos.py:59-72 | every 14-digit stamp is the reformatting of exactly one text |
| Clock.Hl7StampOfDateTime | scripts/verificar_leitos.py:71-74 | printing an instant, parsing it and printing it compactly gives its compact form |
| Clock.Epoch2000Fields | scripts/verificar_exames.py:109 | the default reference instant is 2000-01-01 00:00:00 |
| Clock.FirstDayOf2000 | scripts/verificar_exames.py:109 | day 10957 after 1970-01-01 is 2000-01-01 |
| OrderedDict.DictOf | scripts/verificar_leitos.py:199 | the dictionary built from rows has distinct keys, exactly those of its value map, and no more than there are rows |
| OrderedDict.DictOfKeys | scripts/verificar_leitos.py:199 | its keys are exactly the keys of the rows |
| OrderedDict.DictOfLast | scripts/verificar_leitos.py:199 | a key holds the value of its last row |
| OrderedDict.DictOfValue | scripts/verificar_leitos.py:199 | every value comes from a row with its key |
| OrderedDict.DictOfOrder | scripts/verificar_leitos.py:199 | the keys keep the order of their first row |
| BedMessage.CodesDistinguish | scripts/verificar_leitos.py:345-346 | `status_map` has codes for `A` and `I` only, `type_map` for `N` and `S` only, each injective, and a missing code prints as `None` |
| BedMessage.Hl7Date | scripts/verificar_leitos.py:59-69 | a present date becomes its 14 digits, from which the text is recovered; an absent or empty one becomes the empty field |
| BedMessage.MessageSegments | scripts/verificar_leitos.py:76-82 | the message splits on `"\n"` into exactly the MSH, PV1, PID, OBR and OBX segments, and each segment splits on `'\|'` into its fields |
| BedMessage.FieldPositions | scripts/verificar_leitos.py:76-80 | the field counts of MSH, OBR and OBX and the positions of the time, client id, update time and the two bed dates |
| BedMessage.MessageFields | scripts/verificar_leitos.py:55-82 | five segments; MSH-7 is the send time, OBR-2 reads back as the client id, OBR-7 is the update time, OBX-12 and OBX-14 are the activation and deactivation dates in 14-digit form |
| BedMessage.MshAsWrittenShifted | scripts/verificar_leitos.py:76 | as written, MSH-9 is empty and `ORU^R01` sits in MSH-10, the control id in MSH-11 and the version in MSH-13 |
| BedMessage.MshFieldsPlaced | scripts/verificar_leitos.py:76 | corrected, the message type is MSH-9, the control id MSH-10, the processing id MSH-11, the version MSH-12 and the character set MSH-18 |
| BedSync.NewBeds | scripts/verificar_leitos.py:311-314 | a bed is new exactly when it is an AGHU bed and not an Epimed client id |
| BedSync.StatusChangesUpTo | scripts/verificar_leitos.py:382-388 | every reported change names a bed present on both sides whose Epimed status differs from the AGHU situation, and carries that situation |
| BedSync.DetectStatusChanges | scripts/verificar_leitos.py:380-388 | the detection loop computes exactly the status changes |
| BedSync.BuildStatusUpdate | scripts/verificar_leitos.py:261-272 | the SET list starts with the status; it has the activation column if and only if that date is given, likewise the deactivation column, in that order; each column binds its own value; there is one more value than columns, the last being the bed id |
| BedSync.SetListShape | scripts/verificar_leitos.py:261-272 | such a SET list is one of four shapes: status alone, or with the activation date, the deactivation date, or both |
| BedSync.SetListEffect | scripts/verificar_leitos.py:261-275 | any such SET list sets the status and exactly the dates that are given |
| BedSync.ExecuteUpdate | scripts/verificar_leitos.py:274-275 | the statement applies the SET list to the rows of that client id and to no other |
| BedSync.UpdatedRows | scripts/verificar_leitos.py:258-281 | the rows of the bed take the status and the given dates; the others are untouched |
| BedSync.Formatted | scripts/verificar_leitos.py:405 | `dt.strftime(...) if dt else None`: present exactly when the instant is, and then well formed |
| BedSync.Notice | scripts/verificar_leitos.py:347-351 | the message arguments carry the log id as client id, the bed's dates, and the update time |
| BedSync.StatusDatesAsWritten | scripts/verificar_leitos.py:403-408 | as written, `S` looks up only an activation date and `N` only a deactivation date; the dates are well formed |
| BedSync.StatusDates | scripts/verificar_leitos.py:403-408 | corrected, `A` looks up only an activation date and `I` only a deactivation date |
| BedSync.NewBedsRunNext | scripts/verificar_leitos.py:324-362 | the new-bed loop over one more bed is one more step unless it already aborted |
| BedSync.NewBedsAbortFinal | scripts/verificar_leitos.py:324-362 | an exception other than `RequestException` ends the loop: later beds change nothing |
| BedSync.StatusRunNext | scripts/verificar_leitos.py:397-431 | the update loop over one more change is one more step unless it already aborted |
| BedSync.StatusAbortFinal | scripts/verificar_leitos.py:397-431 | an exception other than `RequestException` ends the update loop |
| BedSync.BedDb.InsertBed | scripts/verificar_leitos.py:206-221 | inserts the bed with its id as client id and bed code, or changes nothing and reports failure |
| BedSync.BedDb.SaveSendLog | scripts/verificar_leitos.py:223-238 | appends a pending row with `id_log = 1` and returns its id |
| BedSync.BedDb.SaveResponse | scripts/verificar_leitos.py:240-256 | marks the row sent, with the message, the response and its own id in `id_log` |
| BedSync.BedDb.UpdateStatus | scripts/verificar_leitos.py:258-281 | builds the SET list and executes it; the rows become `UpdatedRows` |
| BedSync.BedDb.NewBed | scripts/verificar_leitos.py:325-362 | the body of the new-bed loop has the effect of `NewBedStep` |
| BedSync.BedDb.NewBedsLoop | scripts/verificar_leitos.py:324-362 | the loop has the effect of `NewBedsRun` |
| BedSync.BedDb.VerifyNewBeds | scripts/verificar_leitos.py:301-368 | the first routine has the effect of `NewBedsRoutine`, returning early when no bed is new |
| BedSync.BedDb.StatusChange | scripts/verificar_leitos.py:398-431 | the body of the update loop has the effect of `StatusStep` |
| BedSync.BedDb.NextChange | scripts/verificar_leitos.py:397-431 | iteration `i` of the update loop extends the run over the first `i` changes by one |
| BedSync.BedDb.StatusLoop | scripts/verificar_leitos.py:397-431 | the loop has the effect of `StatusRun` |
| BedSync.BedDb.VerifyStatusChanges | scripts/verificar_leitos.py:370-437 | the second routine has the effect of `StatusRoutine`, returning early when nothing changed |
| BedSync.BedDb.Synchronize | scripts/verificar_leitos.py:439-441 | the main block runs the status routine only when the first routine raised nothing; each routine works on the AGHU rows it reads itself (lines 309 and 378) |
| BedRuns.AghuBedsKeyed | scripts/verificar_leitos.py:199 | the AGHU dictionary holds exactly the bed ids of the rows, each with a row of that id |
| BedRuns.EpimedBedsKeys | scripts/verificar_leitos.py:204 | the Epimed dictionary holds exactly the client ids of the rows |
| BedRuns.StatusChangesExactly | scripts/verificar_leitos.py:380-388 | a change (bed, status) is reported if and only if the bed is on both sides, its Epimed status differs, and the status is the AGHU situation; Epimed-only beds are ignored |
| BedRuns.StatusChangesUpToComplete | scripts/verificar_leitos.py:382-388 | every differing bed among the first `n` Epimed beds is reported after `n` beds |
| BedRuns.StatusChangesUpToKeys | scripts/verificar_leitos.py:382-388 | the changes after `n` beds name only the first `n` beds, each once |
| BedRuns.StatusChangesDistinct | scripts/verificar_leitos.py:388 | each bed is reported at most once |
| BedRuns.NoNewBedsWhenKnown | scripts/verificar_leitos.py:311-314 | once every AGHU bed is known to Epimed, no bed is new |
| BedRuns.StatusChangesUpToNone | scripts/verificar_leitos.py:382-388 | once every shared bed agrees with AGHU, no change is detected |
| BedRuns.NoNewBedsNoChange | scripts/verificar_leitos.py:316-320 | with no new bed, the first routine returns early and writes nothing |
| BedRuns.AnsweredLog | scripts/verificar_leitos.py:223-256 | the pending row, once answered, ends as the last log row, sent, with its own id, the message and the response |
| BedRuns.ActiveBedAnnounced | scripts/verificar_leitos.py:333-356 | a new active bed: one log row, pending then sent, holding the message whose client id is the row id and the response; the bed is inserted active since its creation date, whatever the response |
| BedRuns.NewBedPendingOnRequestError | scripts/verificar_leitos.py:341-362 | a `RequestException` leaves the row pending without message or response and the bed uninserted; the loop goes on |
| BedRuns.InactiveBedInserted | scripts/verificar_leitos.py:333-356 | a new bed that is not active gets no log row and no message and is inserted with no activation date, or the failing insert aborts |
| BedRuns.MissingCreationDateAborts | scripts/verificar_leitos.py:331-334 | an active bed without a creation date aborts the routine before anything is written |
| BedRuns.StatusChangeAnnounced | scripts/verificar_leitos.py:414-428 | a status change in which nothing fails: the log row ends sent with the message and the response, and the bed's rows take the new status and the dates found |
| BedRuns.StatusPendingOnRequestError | scripts/verificar_leitos.py:414-431 | a `RequestException` during a status change leaves the row pending and the bed as it was; the loop goes on |
| BedRuns.ClientIdIsLogId | scripts/verificar_leitos.py:342-351 | OBR-2 of every message reads back as the id of the log row created for it |
| BedRuns.NewBedStepAppends | scripts/verificar_leitos.py:333-356 | one new bed only appends: at most one log row, for that bed and only when active, and at most one bed row |
| BedRuns.NewBedsRunAppends | scripts/verificar_leitos.py:324-362 | the first routine only appends to both tables; every log row it adds names a new active bed, every bed row a new bed |
| BedRuns.CleanNewBedStep | scripts/verificar_leitos.py:333-356 | a new bed in which nothing fails, with a creation date if active, adds one bed row with the AGHU situation |
| BedRuns.NewBedsRunClean | scripts/verificar_leitos.py:324-356 | with nothing failing, the loop completes and adds one bed row per new bed, in order, with the AGHU situation as status |
| BedRuns.NewBedsSettle | scripts/verificar_leitos.py:301-356 | with nothing failing and a creation date for every active bed, afterwards every AGHU bed is known and a second run finds no new bed |
| BedRuns.CleanStatusStep | scripts/verificar_leitos.py:414-428 | a clean status change completes and updates the rows of the bed |
| BedRuns.StatusRunClean | scripts/verificar_leitos.py:397-428 | with nothing failing, the update loop completes with the rows after every update |
| BedRuns.EpimedBedsUpdated | scripts/verificar_leitos.py:274-275 | one update keeps the Epimed client ids, gives the bed its new status and leaves every other bed as it was |
| BedRuns.UpdatedAllStatuses | scripts/verificar_leitos.py:397-428 | after updates of distinct beds, each updated bed has its new status and every other bed keeps its entry |
| BedRuns.AgreeAfterUpdates | scripts/verificar_leitos.py:380-388 | after the detected changes are applied, every shared bed agrees with AGHU |
| BedRuns.StatusSettle | scripts/verificar_leitos.py:370-428 | with nothing failing, the second routine leaves no bed differing from AGHU and the same set of Epimed beds |
| BedRuns.SynchronizationSettles | scripts/verificar_leitos.py:439-441 | with nothing failing and a creation date for every active bed, the run completes, every bed of the first AGHU read is known and no bed differs from the second read, so a second run of the script over unchanged AGHU data finds neither a new bed nor a status change |
| BedRuns.AsWrittenDatesNeverFound | scripts/verificar_leitos.py:403-408 | as written, no date is ever looked up for a detected change whose situation has a status code |
| BedRuns.ReactivationDateLost | scripts/verificar_leitos.py:403-408 | as written the reactivation date is never recorded (a bed inserted inactive keeps none); corrected, it is |
| BedRuns.CorrectedDatesRecorded | scripts/verificar_leitos.py:403-428 | corrected, a clean status change records on every row of the bed the date of the new situation only: activation for `A`, deactivation for `I` |

## Left out

- Database connections, cursors, `commit`/`rollback` and the SQL text are
  not modelled. A statement either takes effect or is rolled back,
  according to its failure flag.
- Logging, `print`, log-file setup and environment loading are plumbing.
- The transports are not modelled, and replies are inputs. The exam sender
  (`scripts/verificar_exames.py:399-402`) is a stub that answers `"AA"`.
- The bed sender is modelled as a stub that answers `'ACK'`, which is not
  what `scripts/verificar_leitos.py:84-180` says as written. The `"""` at
  column 0 of line 88 ends `enviar_mensagem_hl7` after its `print`, so it
  returns `None`. That string closes at line 157, and the indented `"""` of
  line 159 is then an unexpected indent at module level, so the file does
  not compile as given. `return 'ACK'` (line 180) belongs to no function.
  The login/token code sits inside the string literals.
- The exam log helpers `salvar_log_envio`/`salvar_log_resposta` of
  `scripts/verificar_exames.py:69-103` are never called by the routine.
- The Epimed readers `obter_*_epimed` are modelled as key sets over the
  stored rows, restricted by the same reference-date filter.
- `strptime` failures on malformed text are not modelled: the dates given to
  the renderer are required to be well formed, as `strftime` produces them.
- Microseconds and time zones of instants are not modelled.
- ExamSync.EpimedDb.Run: the reference date is a parameter.
  - The override of `scripts/verificar_exames.py:532-533` is not modelled;
    it discards `MAX(data_inicio)` in favour of a fixed 2025-01-01.
  - The run row is always appended. The crash on an unbound `id_proc` when
    `registrar_inicio_processamento` raises (line 630) is not modelled.
  - Any exception while reading is one `readError`, and the counts then stay
    0. A failure to record success is one `finishError`; the `ERRO` update
    that follows it succeeds.
  - The start, finish and audit times are inputs, not clock reads.
- BedSync.BedDb.NewBed, BedSync.BedDb.StatusChange: one instant `now` per
  routine. It stands for the script's separate clock reads for the update
  time (line 328, 410), MSH-7 (line 74) and `NOW()` in the log row.
- BedSync.BedDb.SaveSendLog: the log id is the row's position plus one. That
  holds for a serial id with no deleted rows.
- BedSync.NewBedsRoutine: creation, activation and deactivation instants are
  inputs (maps by bed id), not the queries of lines 283-299.
- ExamSync.ExamMessage: prints `dthrexame` as `"%Y-%m-%d %H:%M:%S"`, which
  is what `str(datetime)` gives for an instant without microseconds.

## Findings

| source | as written | input that shows it | evidently intended | confidence | as-written member | corrected member |
|---|---|---|---|---|---|---|
| scripts/verificar_exames.py:429 | `inserir_internacoes` binds `i["medicaldischarge"]`, but the rows of `obter_internacoes_aghu` (lines 177-205) have no such key, so every statement raises `KeyError` and is rolled back | any new admission, e.g. `("P1", "7", t)`: count 0, table unchanged | the admission inserted with its discharge as NULL | not executed | ExamRuns.AsWrittenAdmissionsNeverStored | ExamRuns.CorrectedAdmissionsStored |
| scripts/verificar_leitos.py:403-408 | the date lookup compares the new status with `"S"` and `"N"`, which are `ind_leito_extra` values, while statuses are `"A"`/`"I"` (lines 333, 345) | bed `"7"` going from `I` to `A` with a known activation instant: its `activebeddate` stays unset | `"A"` looks up the activation date, `"I"` the deactivation date | not executed | BedRuns.ReactivationDateLost | BedRuns.CorrectedDatesRecorded |
| scripts/verificar_leitos.py:76 | the MSH template has three bars between the timestamp and `ORU^R01` | any message: split on `'\|'`, field 8 (MSH-9) is empty and `ORU^R01` is field 9 (MSH-10) | two bars, putting the message type in MSH-9 (HL7 v2.5 chapter 2, MSH segment) | not executed | BedMessage.MshAsWrittenShifted | BedMessage.MshFieldsPlaced |
