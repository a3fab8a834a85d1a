/** The reconciliation of hospital admissions ("internações"), unit stays
    ("admissões") and laboratory exams from the hospital system (AGHU) into
    the monitoring database (Epimed), as one run of
    `scripts/verificar_exames.py` performs it. */
module ExamSync {
  import opened Wrappers
  import opened Text
  import opened Clock
  import opened Reconcile

  // ---------------------------------------------------------------------
  // Entities and their natural keys
  // ---------------------------------------------------------------------

  /** A value bound from a row dictionary: the dictionary may lack the key,
      hold SQL NULL under it, or hold a value. */
  datatype Column<T> = Absent | Null | Value(value: T)

  /** A hospital admission (a row of `public.internacoes`). */
  datatype Admission = Admission(medicalRecord: string, admissionNumber: string, admissionDate: nat, discharge: Column<nat>)

  /** A row of the AGHU `internacoes` view: it has no discharge column. */
  datatype AdmissionView = AdmissionView(medicalRecord: string, admissionNumber: string, admissionDate: nat)

  type AdmissionKey = (string, string, nat)

  /** The key the admission diff compares. */
  function AdmissionKeyOf(a: Admission): AdmissionKey
  {
    (a.medicalRecord, a.admissionNumber, a.admissionDate)
  }

  /** The conflict target of `public.internacoes`: the admission number alone. */
  function AdmissionNumber(a: Admission): string { a.admissionNumber }

  /** A stay of an admission in a unit and bed (a row of `public.admissoes`). */
  datatype Stay = Stay(admissionNumber: string, unitCode: string, bedCode: string, unitAdmission: nat)

  type StayKey = (string, string, string, nat)

  /** The key the stay diff compares, which is also the conflict target. */
  function StayKeyOf(s: Stay): StayKey
  {
    (s.admissionNumber, s.unitCode, s.bedCode, s.unitAdmission)
  }

  /** A row of the AGHU `admissoes` view together with its id. */
  datatype StayRow = StayRow(id: nat, stay: Stay)

  /** A row of the `vw_exames` view of laboratory results. */
  datatype LabResult = LabResult(
    patientRecord: string,
    fieldName: string,
    description: string,
    value: string,
    valueType: string,
    resultCode: string,
    specimenCode: string,
    cancellation: Option<string>,
    createdAt: nat)

  /** A row of the AGHU exam join: the stay it is attributed to, the
      admission's medical record, and the result. */
  datatype ExamRecord = ExamRecord(stayId: nat, admissionNumber: string, medicalRecord: string, result: LabResult)

  /** A row of `public.exames`. */
  datatype StoredExam = StoredExam(
    stayId: nat,
    examId: string,
    takenAt: nat,
    description: string,
    value: string,
    valueType: string,
    resultCode: string,
    specimenCode: string,
    cancellation: Option<string>)

  type ExamKey = (nat, string, nat)

  /** The key the exam diff compares, which is also the conflict target. */
  function ExamKeyOf(e: ExamRecord): ExamKey
  {
    (e.stayId, e.result.fieldName, e.result.createdAt)
  }

  function StoredKeyOf(s: StoredExam): ExamKey
  {
    (s.stayId, s.examId, s.takenAt)
  }

  /** The columns `inserir_exame` binds: everything but the medical record
      and admission number; the stored row carries the key of the exam. */
  function ToStored(e: ExamRecord): (s: StoredExam)
    ensures StoredKeyOf(s) == ExamKeyOf(e)
    ensures s.cancellation == e.result.cancellation
  {
    var r := e.result;
    StoredExam(e.stayId, r.fieldName, r.createdAt, r.description, r.value, r.valueType,
               r.resultCode, r.specimenCode, r.cancellation)
  }

  // ---------------------------------------------------------------------
  // Reading both sides
  // ---------------------------------------------------------------------

  /** The reference-date filter of every query: `column >= reference` when a
      reference is given, no filter otherwise. */
  predicate Since(t: nat, reference: Option<nat>)
  {
    reference.None? || reference.value <= t
  }

  /** The admissions read from the AGHU view, with `discharge` in every
      row: `Absent` is what the script builds (the query selects no
      discharge column and the dictionary has no such key), `Null` is the
      corrected reading. */
  function ReadAdmissions(view: seq<AdmissionView>, reference: Option<nat>, discharge: Column<nat>): (rows: seq<Admission>)
    ensures |rows| <= |view|
    ensures forall a :: a in rows <==>
              && a.discharge == discharge
              && Since(a.admissionDate, reference)
              && AdmissionView(a.medicalRecord, a.admissionNumber, a.admissionDate) in view
  {
    if view == [] then []
    else
      var v := view[0];
      (if Since(v.admissionDate, reference) then [Admission(v.medicalRecord, v.admissionNumber, v.admissionDate, discharge)] else [])
      + ReadAdmissions(view[1..], reference, discharge)
  }

  /** `obter_internacoes_aghu` as written: no row has a discharge key. */
  function AghuAdmissionsAsWritten(view: seq<AdmissionView>, reference: Option<nat>): seq<Admission>
  {
    ReadAdmissions(view, reference, Absent)
  }

  /** `obter_internacoes_aghu` corrected: the discharge is bound as NULL. */
  function AghuAdmissions(view: seq<AdmissionView>, reference: Option<nat>): seq<Admission>
  {
    ReadAdmissions(view, reference, Null)
  }

  /** `obter_admissoes_aghu`: the stays of the AGHU view since the reference. */
  function AghuStays(view: seq<StayRow>, reference: Option<nat>): (rows: seq<Stay>)
    ensures |rows| <= |view|
    ensures forall s :: s in rows <==> Since(s.unitAdmission, reference) && exists a :: a in view && a.stay == s
  {
    if view == [] then []
    else
      (if Since(view[0].stay.unitAdmission, reference) then [view[0].stay] else [])
      + AghuStays(view[1..], reference)
  }

  /** The Epimed key sets: the keys of the rows of each table since the
      reference date. */

  function EpimedAdmissionKeys(table: map<string, Admission>, reference: Option<nat>): set<AdmissionKey>
  {
    set n | n in table && Since(table[n].admissionDate, reference) :: AdmissionKeyOf(table[n])
  }

  function EpimedStayKeys(table: map<StayKey, Stay>, reference: Option<nat>): set<StayKey>
  {
    set k | k in table && Since(table[k].unitAdmission, reference) :: StayKeyOf(table[k])
  }

  function EpimedExamKeys(table: map<ExamKey, StoredExam>, reference: Option<nat>): set<ExamKey>
  {
    set k | k in table && Since(table[k].takenAt, reference) :: StoredKeyOf(table[k])
  }

  // ---------------------------------------------------------------------
  // Exam eligibility and the exam join
  // ---------------------------------------------------------------------

  /** The window around the unit admission time in which a result is
      attributed to the stay. */
  const WindowBefore: nat := 4 * SecondsPerHour
  const WindowAfter: nat := 3 * SecondsPerHour

  /** A result may be attributed to a stay admitted at `unitAdmission`: its
      cancellation flag is present and not `'S'` (SQL's `<>` is false on
      NULL), it was created within the closed window
      [unitAdmission − 4h, unitAdmission + 3h], and not before the reference. */
  predicate Eligible(r: LabResult, unitAdmission: nat, reference: Option<nat>)
  {
    && r.cancellation.Some? && r.cancellation.value != "S"
    && unitAdmission - WindowBefore <= r.createdAt <= unitAdmission + WindowAfter
    && Since(r.createdAt, reference)
  }

  /** The join condition of `obter_exames_aghu`. */
  predicate Joins(a: StayRow, i: AdmissionView, r: LabResult, reference: Option<nat>)
  {
    && i.admissionNumber == a.stay.admissionNumber
    && r.patientRecord == i.medicalRecord
    && Eligible(r, a.stay.unitAdmission, reference)
  }

  function Joined(a: StayRow, i: AdmissionView, r: LabResult): ExamRecord
  {
    ExamRecord(a.id, a.stay.admissionNumber, i.medicalRecord, r)
  }

  function ExamsOfAdmission(a: StayRow, i: AdmissionView, results: seq<LabResult>, reference: Option<nat>): (exams: seq<ExamRecord>)
    ensures forall e :: e in exams <==> exists r :: r in results && Joins(a, i, r, reference) && e == Joined(a, i, r)
  {
    if results == [] then []
    else
      (if Joins(a, i, results[0], reference) then [Joined(a, i, results[0])] else [])
      + ExamsOfAdmission(a, i, results[1..], reference)
  }

  function ExamsOfStay(a: StayRow, admissions: seq<AdmissionView>, results: seq<LabResult>, reference: Option<nat>): (exams: seq<ExamRecord>)
    ensures forall e :: e in exams <==>
              exists i, r :: i in admissions && r in results && Joins(a, i, r, reference) && e == Joined(a, i, r)
  {
    if admissions == [] then []
    else
      var here := ExamsOfAdmission(a, admissions[0], results, reference);
      var rest := ExamsOfStay(a, admissions[1..], results, reference);
      assert forall e :: e in here ==> exists i, r :: i in admissions && r in results && Joins(a, i, r, reference) && e == Joined(a, i, r) by {
        forall e | e in here ensures exists i, r :: i in admissions && r in results && Joins(a, i, r, reference) && e == Joined(a, i, r) {
          var r :| r in results && Joins(a, admissions[0], r, reference) && e == Joined(a, admissions[0], r);
          assert admissions[0] in admissions;
        }
      }
      assert forall e :: e in rest ==> exists i, r :: i in admissions && r in results && Joins(a, i, r, reference) && e == Joined(a, i, r) by {
        forall e | e in rest ensures exists i, r :: i in admissions && r in results && Joins(a, i, r, reference) && e == Joined(a, i, r) {
          var i, r :| i in admissions[1..] && r in results && Joins(a, i, r, reference) && e == Joined(a, i, r);
          assert i in admissions;
        }
      }
      assert forall i, r :: i in admissions && r in results && Joins(a, i, r, reference) ==> Joined(a, i, r) in here + rest by {
        forall i, r | i in admissions && r in results && Joins(a, i, r, reference) ensures Joined(a, i, r) in here + rest {
          if i == admissions[0] {
            assert Joined(a, i, r) in here;
          } else {
            assert i in admissions[1..];
            assert Joined(a, i, r) in rest;
          }
        }
      }
      here + rest
  }

  /** The rows of `obter_exames_aghu`: stays joined with admissions on the
      admission number and with results on the medical record, restricted to
      eligible results. The row order is that of a nested loop over stays,
      admissions and results. */
  function ExamJoin(stays: seq<StayRow>, admissions: seq<AdmissionView>, results: seq<LabResult>, reference: Option<nat>): (exams: seq<ExamRecord>)
    ensures forall e :: e in exams <==>
              exists a, i, r :: a in stays && i in admissions && r in results && Joins(a, i, r, reference) && e == Joined(a, i, r)
  {
    if stays == [] then []
    else
      var here := ExamsOfStay(stays[0], admissions, results, reference);
      var rest := ExamJoin(stays[1..], admissions, results, reference);
      assert forall e :: e in here ==> exists a, i, r :: a in stays && i in admissions && r in results && Joins(a, i, r, reference) && e == Joined(a, i, r) by {
        forall e | e in here ensures exists a, i, r :: a in stays && i in admissions && r in results && Joins(a, i, r, reference) && e == Joined(a, i, r) {
          var i, r :| i in admissions && r in results && Joins(stays[0], i, r, reference) && e == Joined(stays[0], i, r);
          assert stays[0] in stays;
        }
      }
      assert forall e :: e in rest ==> exists a, i, r :: a in stays && i in admissions && r in results && Joins(a, i, r, reference) && e == Joined(a, i, r) by {
        forall e | e in rest ensures exists a, i, r :: a in stays && i in admissions && r in results && Joins(a, i, r, reference) && e == Joined(a, i, r) {
          var a, i, r :| a in stays[1..] && i in admissions && r in results && Joins(a, i, r, reference) && e == Joined(a, i, r);
          assert a in stays;
        }
      }
      assert forall a, i, r :: a in stays && i in admissions && r in results && Joins(a, i, r, reference) ==> Joined(a, i, r) in here + rest by {
        forall a, i, r | a in stays && i in admissions && r in results && Joins(a, i, r, reference) ensures Joined(a, i, r) in here + rest {
          if a == stays[0] {
            assert Joined(a, i, r) in here;
          } else {
            assert a in stays[1..];
            assert Joined(a, i, r) in rest;
          }
        }
      }
      here + rest
  }

  /** Every row of the exam join satisfies the eligibility rule for its own
      stay, and so is never a cancelled result. */
  lemma ExamJoinEligible(stays: seq<StayRow>, admissions: seq<AdmissionView>, results: seq<LabResult>, reference: nat, e: ExamRecord)
    requires e in ExamJoin(stays, admissions, results, Some(reference))
    ensures e.result.cancellation != Some("S") && e.result.cancellation != None
    ensures reference <= e.result.createdAt
    ensures exists a :: a in stays && a.id == e.stayId
              && a.stay.unitAdmission - WindowBefore <= e.result.createdAt <= a.stay.unitAdmission + WindowAfter
  {
    var a, i, r :| a in stays && i in admissions && r in results && Joins(a, i, r, Some(reference)) && e == Joined(a, i, r);
  }

  // ---------------------------------------------------------------------
  // The diffs
  // ---------------------------------------------------------------------

  /** The new admissions: those whose (medical record, number, date) is not
      among the Epimed keys, in AGHU order. */
  function NewAdmissions(aghu: seq<Admission>, epimed: set<AdmissionKey>): (delta: seq<Admission>)
    ensures |delta| <= |aghu|
    ensures forall a :: a in delta <==> a in aghu && AdmissionKeyOf(a) !in epimed
  {
    NewRecords(aghu, epimed, AdmissionKeyOf)
  }

  /** The new stays: those whose (number, unit, bed, unit admission) is not
      among the Epimed keys, in AGHU order. */
  function NewStays(aghu: seq<Stay>, epimed: set<StayKey>): (delta: seq<Stay>)
    ensures |delta| <= |aghu|
    ensures forall s :: s in delta <==> s in aghu && StayKeyOf(s) !in epimed
  {
    NewRecords(aghu, epimed, StayKeyOf)
  }

  /** The new exams: those whose (stay id, exam id, time) is not among the
      Epimed keys, in AGHU order. */
  function NewExams(aghu: seq<ExamRecord>, epimed: set<ExamKey>): (delta: seq<ExamRecord>)
    ensures |delta| <= |aghu|
    ensures forall e :: e in delta <==> e in aghu && ExamKeyOf(e) !in epimed
  {
    NewRecords(aghu, epimed, ExamKeyOf)
  }

  // ---------------------------------------------------------------------
  // The exam message
  // ---------------------------------------------------------------------

  /** `gerar_mensagem_hl7`: the medical record, the exam id and the printed
      exam time after an `HL7` tag, separated by `'|'`. */
  function ExamMessage(e: ExamRecord): string
  {
    "HL7|" + e.medicalRecord + "|" + e.result.fieldName + "|" + DateTimeText(e.result.createdAt)
  }

  /** The messages of `delta`, in order. */
  function ExamMessages(delta: seq<ExamRecord>): (ms: seq<string>)
    ensures |ms| == |delta|
  {
    if delta == [] then []
    else ExamMessages(delta[..|delta| - 1]) + [ExamMessage(delta[|delta| - 1])]
  }

  /** Message `i` is the message of exam `i`. */
  lemma {:induction false} ExamMessagesAt(delta: seq<ExamRecord>, i: nat)
    requires i < |delta|
    ensures ExamMessages(delta)[i] == ExamMessage(delta[i])
  {
    if i < |delta| - 1 {
      ExamMessagesAt(delta[..|delta| - 1], i);
    }
  }

  /** The message is the `'|'`-join of its four fields, and splitting it on
      `'|'` gives exactly those fields back if and only if neither the
      medical record nor the exam id contains `'|'`. */
  lemma ExamMessageFields(e: ExamRecord)
    ensures ExamMessage(e) == Join(["HL7", e.medicalRecord, e.result.fieldName, DateTimeText(e.result.createdAt)], "|")
    ensures Split(ExamMessage(e), '|') == ["HL7", e.medicalRecord, e.result.fieldName, DateTimeText(e.result.createdAt)]
            <==> '|' !in e.medicalRecord && '|' !in e.result.fieldName
  {
    DateTimeTextWellFormed(e.result.createdAt);
    assert ExamMessage(e) == "HL7" + "|" + e.medicalRecord + "|" + e.result.fieldName + "|" + DateTimeText(e.result.createdAt);
    JoinFour("HL7", e.medicalRecord, e.result.fieldName, DateTimeText(e.result.createdAt), '|');
  }

  // ---------------------------------------------------------------------
  // Statement outcomes
  // ---------------------------------------------------------------------

  /** Whether the database rejects statement `i`; positions past the end of
      `faults` succeed. */
  function FaultAt(faults: seq<bool>, i: nat): bool
  {
    i < |faults| && faults[i]
  }

  /** The insert statement of an admission commits unless binding
      `i["medicaldischarge"]` raises `KeyError` or the database rejects it. */
  predicate AdmissionCommits(a: Admission, fault: bool)
  {
    !a.discharge.Absent? && !fault
  }

  function AdmissionOutcomes(rows: seq<Admission>, faults: seq<bool>): (ok: seq<bool>)
    ensures |ok| == |rows|
    ensures forall i :: 0 <= i < |rows| ==> ok[i] == AdmissionCommits(rows[i], FaultAt(faults, i))
  {
    seq(|rows|, i requires 0 <= i < |rows| => AdmissionCommits(rows[i], FaultAt(faults, i)))
  }

  /** Statements that always bind: each commits unless the database rejects it. */
  function Commits(faults: seq<bool>, n: nat): (ok: seq<bool>)
    ensures |ok| == n
    ensures forall i :: 0 <= i < n ==> ok[i] == !FaultAt(faults, i)
  {
    seq(n, i requires 0 <= i < n => !FaultAt(faults, i))
  }

  /** What the transport answers for one exam message: an acknowledgement
      code, or an exception. */
  datatype Reply = Ack(code: string) | TransportError(detail: string)

  /** The acknowledgement code of HL7 v2 "Application Accept". */
  const Accepted: string := "AA"

  /** The reply to message `i`; positions past the end of `replies` get the
      answer of `enviar_mensagem_hl7`, which always returns `"AA"`. */
  function ReplyAt(replies: seq<Reply>, i: nat): Reply
  {
    if i < |replies| then replies[i] else Ack(Accepted)
  }

  /** An exam is stored when its reply is `"AA"` and its insert commits. */
  function ExamOutcomes(delta: seq<ExamRecord>, replies: seq<Reply>, faults: seq<bool>): (ok: seq<bool>)
    ensures |ok| == |delta|
    ensures forall i :: 0 <= i < |delta| ==> ok[i] == (ReplyAt(replies, i) == Ack(Accepted) && !FaultAt(faults, i))
  {
    seq(|delta|, i requires 0 <= i < |delta| => ReplyAt(replies, i) == Ack(Accepted) && !FaultAt(faults, i))
  }

  // ---------------------------------------------------------------------
  // Run control and audit rows
  // ---------------------------------------------------------------------

  const Running: string := "EM_EXECUCAO"
  const Succeeded: string := "SUCESSO"
  const Failed: string := "ERRO"

  /** A row of `controle_processamento`; the row at index `k` has id `k + 1`. */
  datatype RunRow = RunRow(startedAt: nat, finishedAt: Option<nat>, status: string)

  /** A row of `log_execucoes`. */
  datatype AuditRow = AuditRow(
    executedAt: nat,
    newAdmissions: nat,
    newStays: nat,
    newExams: nat,
    duration: int,
    status: string,
    message: Option<string>)

  /** The latest start among all recorded runs. */
  function LatestStart(runs: seq<RunRow>): (t: nat)
    requires runs != []
    ensures forall i :: 0 <= i < |runs| ==> runs[i].startedAt <= t
    ensures exists i :: 0 <= i < |runs| && runs[i].startedAt == t
  {
    if |runs| == 1 then runs[0].startedAt
    else
      var rest := LatestStart(runs[1..]);
      assert forall i :: 1 <= i < |runs| ==> runs[i] == runs[1..][i - 1];
      if runs[0].startedAt >= rest then runs[0].startedAt else rest
  }

  /** `obter_data_ultimo_processamento`: `MAX(data_inicio)` over every run,
      whatever its status, or 2000-01-01 when there is none. */
  function LastProcessing(runs: seq<RunRow>): (t: nat)
    ensures runs == [] ==> t == Epoch2000
    ensures forall i :: 0 <= i < |runs| ==> runs[i].startedAt <= t
    ensures runs != [] ==> exists i :: 0 <= i < |runs| && runs[i].startedAt == t
  {
    if runs == [] then Epoch2000 else LatestStart(runs)
  }

  /** `registrar_fim_processamento`: the finish time and status of run `id`;
      an id with no row changes nothing. */
  function Finish(runs: seq<RunRow>, id: nat, status: string, now: nat): (r: seq<RunRow>)
    ensures |r| == |runs|
    ensures forall k :: 0 <= k < |runs| && k != id - 1 ==> r[k] == runs[k]
    ensures 1 <= id <= |runs| ==> r[id - 1] == RunRow(runs[id - 1].startedAt, Some(now), status)
  {
    if 1 <= id <= |runs| then runs[id - 1 := RunRow(runs[id - 1].startedAt, Some(now), status)] else runs
  }

  // ---------------------------------------------------------------------
  // One run as a function of the Epimed state
  // ---------------------------------------------------------------------

  /** The Epimed tables the routine reads and writes. */
  datatype Tables = Tables(
    admissions: map<string, Admission>,
    stays: map<StayKey, Stay>,
    exams: map<ExamKey, StoredExam>,
    runs: seq<RunRow>,
    audit: seq<AuditRow>)

  /** Every row is stored under its own conflict key. */
  predicate Consistent(t: Tables)
  {
    && (forall n :: n in t.admissions ==> t.admissions[n].admissionNumber == n)
    && (forall k :: k in t.stays ==> StayKeyOf(t.stays[k]) == k)
    && (forall k :: k in t.exams ==> StoredKeyOf(t.exams[k]) == k)
  }

  /** What the AGHU views hold when the run reads them. */
  datatype Aghu = Aghu(admissions: seq<AdmissionView>, stays: seq<StayRow>, results: seq<LabResult>)

  /** What goes wrong during a run: an exception while reading (with its
      message), an exception when recording success, a failing audit insert,
      the per-statement rejections and the transport replies. */
  datatype Faults = Faults(
    readError: Option<string>,
    finishError: Option<string>,
    auditFails: bool,
    admissionFaults: seq<bool>,
    stayFaults: seq<bool>,
    replies: seq<Reply>,
    examFaults: seq<bool>)

  /** A run in which nothing fails and the transport accepts everything. */
  const NoFaults: Faults := Faults(None, None, false, [], [], [], [])

  /** The three deltas of a run. */
  datatype Deltas = Deltas(admissions: seq<Admission>, stays: seq<Stay>, exams: seq<ExamRecord>)

  function Detect(t: Tables, aghu: Aghu, reference: nat): Deltas
  {
    var since := Some(reference);
    Deltas(
      NewAdmissions(AghuAdmissions(aghu.admissions, since), EpimedAdmissionKeys(t.admissions, since)),
      NewStays(AghuStays(aghu.stays, since), EpimedStayKeys(t.stays, since)),
      NewExams(ExamJoin(aghu.stays, aghu.admissions, aghu.results, since), EpimedExamKeys(t.exams, since)))
  }

  /** The audit row appended unless its insert fails. */
  function Audited(audit: seq<AuditRow>, fails: bool, row: AuditRow): seq<AuditRow>
  {
    if fails then audit else audit + [row]
  }

  /** The Epimed tables after one run of `verificar_e_enviar_exames` started
      at `started` and finished at `finished`, with reference date
      `reference`. */
  function RunEffect(t: Tables, aghu: Aghu, reference: nat, started: nat, finished: nat, f: Faults): Tables
  {
    var runs := t.runs + [RunRow(started, None, Running)];
    var id := |runs|;
    if f.readError.Some? then
      Tables(t.admissions, t.stays, t.exams, Finish(runs, id, Failed, finished),
             Audited(t.audit, f.auditFails, AuditRow(finished, 0, 0, 0, finished - started, Failed, f.readError)))
    else
      var d := Detect(t, aghu, reference);
      var status := if f.finishError.Some? then Failed else Succeeded;
      Tables(
        InsertAll(t.admissions, d.admissions, AdmissionOutcomes(d.admissions, f.admissionFaults), AdmissionNumber, Itself),
        InsertAll(t.stays, d.stays, Commits(f.stayFaults, |d.stays|), StayKeyOf, Itself),
        InsertAll(t.exams, d.exams, ExamOutcomes(d.exams, f.replies, f.examFaults), ExamKeyOf, ToStored),
        Finish(runs, id, status, finished),
        Audited(t.audit, f.auditFails,
                AuditRow(finished, |d.admissions|, |d.stays|, |d.exams|, finished - started, status, f.finishError)))
  }

  // ---------------------------------------------------------------------
  // The Epimed database and the routine
  // ---------------------------------------------------------------------

  class EpimedDb {
    /** `public.internacoes`, by admission number. */
    var admissions: map<string, Admission>
    /** `public.admissoes`, by stay key. */
    var stays: map<StayKey, Stay>
    /** `public.exames`, by exam key. */
    var exams: map<ExamKey, StoredExam>
    /** `controle_processamento`. */
    var runs: seq<RunRow>
    /** `log_execucoes`. */
    var audit: seq<AuditRow>

    function State(): Tables
      reads this
    {
      Tables(admissions, stays, exams, runs, audit)
    }

    /** `registrar_inicio_processamento`: a running row, whose id is returned. */
    method RegisterStart(now: nat) returns (id: nat)
      modifies this`runs
      ensures runs == old(runs) + [RunRow(now, None, Running)]
      ensures id == |runs| && runs[id - 1].status == Running
    {
      runs := runs + [RunRow(now, None, Running)];
      id := |runs|;
    }

    /** `registrar_fim_processamento`. */
    method RegisterEnd(id: nat, status: string, now: nat)
      modifies this`runs
      ensures runs == Finish(old(runs), id, status, now)
    {
      if 1 <= id <= |runs| {
        runs := runs[id - 1 := RunRow(runs[id - 1].startedAt, Some(now), status)];
      }
    }

    /** `inserir_internacoes`: one statement per row, a failing one rolled back
        and the next still tried; returns how many committed. */
    method InsertAdmissions(rows: seq<Admission>, faults: seq<bool>) returns (count: nat)
      modifies this`admissions
      ensures admissions == InsertAll(old(admissions), rows, AdmissionOutcomes(rows, faults), AdmissionNumber, Itself)
      ensures count == Successes(AdmissionOutcomes(rows, faults))
    {
      if rows == [] {
        return 0;
      }
      ghost var ok := AdmissionOutcomes(rows, faults);
      count := 0;
      var i := 0;
      while i < |rows|
        invariant 0 <= i <= |rows|
        invariant admissions == InsertAll(old(admissions), rows[..i], ok[..i], AdmissionNumber, Itself)
        invariant count == Successes(ok[..i])
      {
        var a := rows[i];
        var raised := a.discharge.Absent? || FaultAt(faults, i);
        assert ok[i] == !raised;
        InsertAllStep(old(admissions), rows, ok, AdmissionNumber, Itself, i);
        if !raised {
          assert AdmissionNumber(a) == a.admissionNumber && Itself(a) == a;
          admissions := Upsert(admissions, a.admissionNumber, a);
          count := count + 1;
        }
        i := i + 1;
      }
      assert rows[..i] == rows && ok[..i] == ok;
    }

    /** `inserir_admissoes`. */
    method InsertStays(rows: seq<Stay>, faults: seq<bool>) returns (count: nat)
      modifies this`stays
      ensures stays == InsertAll(old(stays), rows, Commits(faults, |rows|), StayKeyOf, Itself)
      ensures count == Successes(Commits(faults, |rows|))
    {
      if rows == [] {
        return 0;
      }
      ghost var ok := Commits(faults, |rows|);
      count := 0;
      var i := 0;
      while i < |rows|
        invariant 0 <= i <= |rows|
        invariant stays == InsertAll(old(stays), rows[..i], ok[..i], StayKeyOf, Itself)
        invariant count == Successes(ok[..i])
      {
        var s := rows[i];
        assert ok[i] == !FaultAt(faults, i);
        InsertAllStep(old(stays), rows, ok, StayKeyOf, Itself, i);
        if !FaultAt(faults, i) {
          assert Itself(s) == s;
          stays := Upsert(stays, StayKeyOf(s), s);
          count := count + 1;
        }
        i := i + 1;
      }
      assert rows[..i] == rows && ok[..i] == ok;
    }

    /** `inserir_exame`: reports whether the statement committed. */
    method InsertExam(e: ExamRecord, fault: bool) returns (inserted: bool)
      modifies this`exams
      ensures inserted == !fault
      ensures exams == if inserted then Upsert(old(exams), ExamKeyOf(e), ToStored(e)) else old(exams)
    {
      if fault {
        return false;
      }
      exams := Upsert(exams, ExamKeyOf(e), ToStored(e));
      return true;
    }

    /** One exam of the loop: its message is sent, and it is inserted when
        the reply is `"AA"` and the insert commits. */
    method SendExam(e: ExamRecord, reply: Reply, fault: bool) returns (message: string)
      modifies this`exams
      ensures message == ExamMessage(e)
      ensures exams == if reply == Ack(Accepted) && !fault then Upsert(old(exams), ExamKeyOf(e), ToStored(e)) else old(exams)
    {
      message := ExamMessage(e);
      if reply == Ack(Accepted) {
        var _ := InsertExam(e, fault);
      }
    }

    /** The exam loop: each new exam is rendered and sent; it is inserted
        only when the reply is `"AA"`, and an exception rolls back that exam
        alone. Returns the messages sent, in order. */
    method SendExams(delta: seq<ExamRecord>, replies: seq<Reply>, faults: seq<bool>) returns (sent: seq<string>)
      modifies this`exams
      ensures sent == ExamMessages(delta)
      ensures exams == InsertAll(old(exams), delta, ExamOutcomes(delta, replies, faults), ExamKeyOf, ToStored)
    {
      ghost var ok := ExamOutcomes(delta, replies, faults);
      sent := [];
      var i := 0;
      while i < |delta|
        invariant 0 <= i <= |delta|
        invariant sent == ExamMessages(delta[..i])
        invariant exams == InsertAll(old(exams), delta[..i], ok[..i], ExamKeyOf, ToStored)
      {
        var e := delta[i];
        assert delta[..i + 1][..i] == delta[..i];
        assert ok[i] == (ReplyAt(replies, i) == Ack(Accepted) && !FaultAt(faults, i));
        InsertAllStep(old(exams), delta, ok, ExamKeyOf, ToStored, i);
        var message := SendExam(e, ReplyAt(replies, i), FaultAt(faults, i));
        sent := sent + [message];
        i := i + 1;
      }
      assert delta[..i] == delta && ok[..i] == ok;
    }

    /** The three insert stages of a run, on the deltas it detected. */
    method ApplyDeltas(d: Deltas, f: Faults)
      modifies this`admissions, this`stays, this`exams
      ensures admissions == InsertAll(old(admissions), d.admissions, AdmissionOutcomes(d.admissions, f.admissionFaults), AdmissionNumber, Itself)
      ensures stays == InsertAll(old(stays), d.stays, Commits(f.stayFaults, |d.stays|), StayKeyOf, Itself)
      ensures exams == InsertAll(old(exams), d.exams, ExamOutcomes(d.exams, f.replies, f.examFaults), ExamKeyOf, ToStored)
    {
      var _ := InsertAdmissions(d.admissions, f.admissionFaults);
      var _ := InsertStays(d.stays, f.stayFaults);
      var _ := SendExams(d.exams, f.replies, f.examFaults);
    }

    /** `verificar_e_enviar_exames` from the registration of the run onwards. */
    method Run(aghu: Aghu, reference: nat, started: nat, finished: nat, f: Faults)
      modifies this
      ensures State() == RunEffect(old(State()), aghu, reference, started, finished, f)
    {
      var newAdmissions, newStays, newExams := 0, 0, 0;
      var status := Succeeded;
      var message: Option<string> := None;
      var id := RegisterStart(started);
      if f.readError.Some? {
        status, message := Failed, f.readError;
        RegisterEnd(id, Failed, finished);
      } else {
        var d := Detect(State(), aghu, reference);
        newAdmissions, newStays, newExams := |d.admissions|, |d.stays|, |d.exams|;
        ApplyDeltas(d, f);
        if f.finishError.Some? {
          status, message := Failed, f.finishError;
          RegisterEnd(id, Failed, finished);
        } else {
          RegisterEnd(id, Succeeded, finished);
        }
      }
      if !f.auditFails {
        audit := audit + [AuditRow(finished, newAdmissions, newStays, newExams, finished - started, status, message)];
      }
    }
  }
}
