/** What one run, and two runs in a row, of `verificar_e_enviar_exames` do
    to the Epimed tables. */
module ExamRuns {
  import opened Wrappers
  import opened Reconcile
  import opened ExamSync

  // ---------------------------------------------------------------------
  // The insert loops
  // ---------------------------------------------------------------------

  /** The admission loop stores the rows whose statement committed and no
      others, a failing row does not stop the rows after it, and rows already
      present keep their content. */
  lemma AdmissionLoopEffect(table: map<string, Admission>, rows: seq<Admission>, faults: seq<bool>, n: string)
    ensures var after := InsertAll(table, rows, AdmissionOutcomes(rows, faults), AdmissionNumber, Itself);
            && (n in after <==> n in table || exists i :: 0 <= i < |rows| && rows[i].admissionNumber == n
                                                          && AdmissionCommits(rows[i], FaultAt(faults, i)))
            && (n in table ==> after[n] == table[n])
  {
    var ok := AdmissionOutcomes(rows, faults);
    InsertAllEffect(table, rows, ok, AdmissionNumber, Itself);
    var added := set i | 0 <= i < |rows| && ok[i] :: AdmissionNumber(rows[i]);
    if n in added {
      var i :| 0 <= i < |rows| && ok[i] && AdmissionNumber(rows[i]) == n;
    }
    if exists i :: 0 <= i < |rows| && rows[i].admissionNumber == n && AdmissionCommits(rows[i], FaultAt(faults, i)) {
      var i :| 0 <= i < |rows| && rows[i].admissionNumber == n && AdmissionCommits(rows[i], FaultAt(faults, i));
      assert n in added;
    }
  }

  /** The same for the stay loop. */
  lemma StayLoopEffect(table: map<StayKey, Stay>, rows: seq<Stay>, faults: seq<bool>, k: StayKey)
    ensures var after := InsertAll(table, rows, Commits(faults, |rows|), StayKeyOf, Itself);
            && (k in after <==> k in table || exists i :: 0 <= i < |rows| && StayKeyOf(rows[i]) == k && !FaultAt(faults, i))
            && (k in table ==> after[k] == table[k])
  {
    var ok := Commits(faults, |rows|);
    InsertAllEffect(table, rows, ok, StayKeyOf, Itself);
    var added := set i | 0 <= i < |rows| && ok[i] :: StayKeyOf(rows[i]);
    if k in added {
      var i :| 0 <= i < |rows| && ok[i] && StayKeyOf(rows[i]) == k;
    }
    if exists i :: 0 <= i < |rows| && StayKeyOf(rows[i]) == k && !FaultAt(faults, i) {
      var i :| 0 <= i < |rows| && StayKeyOf(rows[i]) == k && !FaultAt(faults, i);
      assert k in added;
    }
  }

  // ---------------------------------------------------------------------
  // The exam loop
  // ---------------------------------------------------------------------

  /** An exam key enters the table exactly when some new exam with that key
      got the reply `"AA"` and its insert committed; exams already stored
      keep their content. */
  lemma ExamLoopEffect(table: map<ExamKey, StoredExam>, delta: seq<ExamRecord>, replies: seq<Reply>, faults: seq<bool>, k: ExamKey)
    ensures var after := InsertAll(table, delta, ExamOutcomes(delta, replies, faults), ExamKeyOf, ToStored);
            && (k in after <==> k in table || exists i :: 0 <= i < |delta| && ExamKeyOf(delta[i]) == k
                                                          && ReplyAt(replies, i) == Ack(Accepted) && !FaultAt(faults, i))
            && (k in table ==> after[k] == table[k])
  {
    var ok := ExamOutcomes(delta, replies, faults);
    InsertAllEffect(table, delta, ok, ExamKeyOf, ToStored);
    var added := set i | 0 <= i < |delta| && ok[i] :: ExamKeyOf(delta[i]);
    if k in added {
      var i :| 0 <= i < |delta| && ok[i] && ExamKeyOf(delta[i]) == k;
    }
    if exists i :: 0 <= i < |delta| && ExamKeyOf(delta[i]) == k && ReplyAt(replies, i) == Ack(Accepted) && !FaultAt(faults, i) {
      var i :| 0 <= i < |delta| && ExamKeyOf(delta[i]) == k && ReplyAt(replies, i) == Ack(Accepted) && !FaultAt(faults, i);
      assert k in added;
    }
  }

  /** A transport that never answers `"AA"` leaves the exam table as it was,
      however many exams are new. */
  lemma RejectingTransportStoresNothing(table: map<ExamKey, StoredExam>, delta: seq<ExamRecord>, replies: seq<Reply>, faults: seq<bool>)
    requires |replies| >= |delta|
    requires forall i :: 0 <= i < |delta| ==> replies[i] != Ack(Accepted)
    ensures InsertAll(table, delta, ExamOutcomes(delta, replies, faults), ExamKeyOf, ToStored) == table
  {
    InsertAllNoneOk(table, delta, ExamOutcomes(delta, replies, faults), ExamKeyOf, ToStored);
  }

  /** With the stub transport, which answers `"AA"` to everything, and no
      failing insert, every new exam is stored, each under its own key. */
  lemma StubTransportStoresAll(table: map<ExamKey, StoredExam>, delta: seq<ExamRecord>)
    ensures var after := InsertAll(table, delta, ExamOutcomes(delta, [], []), ExamKeyOf, ToStored);
            forall i :: 0 <= i < |delta| ==> ExamKeyOf(delta[i]) in after
  {
    var ok := ExamOutcomes(delta, [], []);
    InsertAllEffect(table, delta, ok, ExamKeyOf, ToStored);
    forall i | 0 <= i < |delta|
      ensures ExamKeyOf(delta[i]) in set j | 0 <= j < |delta| && ok[j] :: ExamKeyOf(delta[j])
    {
      assert ok[i];
    }
  }

  // ---------------------------------------------------------------------
  // Run control, audit and watermark
  // ---------------------------------------------------------------------

  /** A run appends one run row, which ends as `SUCESSO` exactly when no
      exception escaped the main block and as `ERRO` otherwise, and appends
      one audit row with the same status, the exception message with `ERRO`
      and none with `SUCESSO`, unless the audit insert fails. */
  lemma RunStatus(t: Tables, aghu: Aghu, reference: nat, started: nat, finished: nat, f: Faults)
    ensures var after := RunEffect(t, aghu, reference, started, finished, f);
            var ok := f.readError.None? && f.finishError.None?;
            && |after.runs| == |t.runs| + 1
            && after.runs[..|t.runs|] == t.runs
            && after.runs[|t.runs|].startedAt == started
            && after.runs[|t.runs|].finishedAt == Some(finished)
            && (after.runs[|t.runs|].status == Succeeded <==> ok)
            && (after.runs[|t.runs|].status == Failed <==> !ok)
            && (f.auditFails ==> after.audit == t.audit)
            && (!f.auditFails ==>
                  && |after.audit| == |t.audit| + 1
                  && after.audit[..|t.audit|] == t.audit
                  && after.audit[|t.audit|].status == after.runs[|t.runs|].status
                  && (after.audit[|t.audit|].message.None? <==> ok)
                  && (f.readError.Some? ==> after.audit[|t.audit|].message == f.readError)
                  && (f.readError.None? ==> after.audit[|t.audit|].message == f.finishError))
  {
    var after := RunEffect(t, aghu, reference, started, finished, f);
    assert after.runs[..|t.runs|] == t.runs;
    if !f.auditFails {
      assert after.audit[..|t.audit|] == t.audit;
    }
  }

  /** The audit row holds the lengths of the three deltas, the records
      detected as new, and 0 for each when reading raised. */
  lemma AuditCounts(t: Tables, aghu: Aghu, reference: nat, started: nat, finished: nat, f: Faults)
    requires !f.auditFails
    ensures var after := RunEffect(t, aghu, reference, started, finished, f);
            var row := after.audit[|t.audit|];
            var d := Detect(t, aghu, reference);
            && |after.audit| == |t.audit| + 1
            && (f.readError.Some? ==> row.newAdmissions == 0 && row.newStays == 0 && row.newExams == 0)
            && (f.readError.None? ==>
                  && row.newAdmissions == |d.admissions|
                  && row.newStays == |d.stays|
                  && row.newExams == |d.exams|)
  {
  }

  /** The audit row counts what was detected as new, not what was inserted:
      it is the same whatever statements fail and whatever the transport
      answers, and each table grows by at most its count. */
  lemma AuditCountsDetected(t: Tables, aghu: Aghu, reference: nat, started: nat, finished: nat, f: Faults, g: Faults)
    requires f.readError == g.readError && f.finishError == g.finishError && f.auditFails == g.auditFails
    requires !f.auditFails
    ensures var after := RunEffect(t, aghu, reference, started, finished, f);
            var row := after.audit[|t.audit|];
            && after.audit == RunEffect(t, aghu, reference, started, finished, g).audit
            && |after.admissions.Keys| <= |t.admissions.Keys| + row.newAdmissions
            && |after.stays.Keys| <= |t.stays.Keys| + row.newStays
            && |after.exams.Keys| <= |t.exams.Keys| + row.newExams
  {
    if f.readError.None? {
      var d := Detect(t, aghu, reference);
      InsertAllGrowth(t.admissions, d.admissions, AdmissionOutcomes(d.admissions, f.admissionFaults), AdmissionNumber, Itself);
      InsertAllGrowth(t.stays, d.stays, Commits(f.stayFaults, |d.stays|), StayKeyOf, Itself);
      InsertAllGrowth(t.exams, d.exams, ExamOutcomes(d.exams, f.replies, f.examFaults), ExamKeyOf, ToStored);
    }
  }

  /** The next run's reference date, the latest start of any run, becomes
      the start of this run or stays where it was, whatever the outcome:
      a failed run moves it forward as well. */
  lemma WatermarkAfterRun(t: Tables, aghu: Aghu, reference: nat, started: nat, finished: nat, f: Faults)
    ensures var after := RunEffect(t, aghu, reference, started, finished, f);
            LastProcessing(after.runs)
            == if t.runs == [] || LastProcessing(t.runs) < started then started else LastProcessing(t.runs)
  {
    var runs := t.runs + [RunRow(started, None, Running)];
    if f.readError.Some? {
      assert RunEffect(t, aghu, reference, started, finished, f).runs == Finish(runs, |runs|, Failed, finished);
      FinishedWatermark(t.runs, started, Failed, finished);
    } else {
      var status := if f.finishError.Some? then Failed else Succeeded;
      assert RunEffect(t, aghu, reference, started, finished, f).runs == Finish(runs, |runs|, status, finished);
      FinishedWatermark(t.runs, started, status, finished);
    }
  }

  /** The watermark once the row of a run is added and then finished. */
  lemma FinishedWatermark(runs: seq<RunRow>, started: nat, status: string, finished: nat)
    ensures var after := Finish(runs + [RunRow(started, None, Running)], |runs| + 1, status, finished);
            LastProcessing(after)
            == if runs == [] || LastProcessing(runs) < started then started else LastProcessing(runs)
  {
    var after := Finish(runs + [RunRow(started, None, Running)], |runs| + 1, status, finished);
    var n := |runs|;
    var w := LastProcessing(after);
    assert after[n].startedAt == started;
    assert forall i :: 0 <= i < n ==> after[i] == runs[i];
    var j :| 0 <= j < |after| && after[j].startedAt == w;
    if runs != [] {
      var m :| 0 <= m < n && runs[m].startedAt == LastProcessing(runs);
      assert after[m].startedAt == LastProcessing(runs);
    }
  }

  /** A run keeps every row under its own conflict key. */
  lemma RunKeepsConsistent(t: Tables, aghu: Aghu, reference: nat, started: nat, finished: nat, f: Faults)
    requires Consistent(t)
    ensures Consistent(RunEffect(t, aghu, reference, started, finished, f))
  {
    if f.readError.None? {
      var d := Detect(t, aghu, reference);
      InsertAllKeyed(t.admissions, d.admissions, AdmissionOutcomes(d.admissions, f.admissionFaults), AdmissionNumber, Itself, AdmissionNumber);
      InsertAllKeyed(t.stays, d.stays, Commits(f.stayFaults, |d.stays|), StayKeyOf, Itself, StayKeyOf);
      InsertAllKeyed(t.exams, d.exams, ExamOutcomes(d.exams, f.replies, f.examFaults), ExamKeyOf, ToStored, StoredKeyOf);
    }
  }

  // ---------------------------------------------------------------------
  // Running twice
  // ---------------------------------------------------------------------

  /** After the stays of a run are all inserted, the same AGHU stays are no
      longer new. */
  lemma StaysSettle(table: map<StayKey, Stay>, src: seq<Stay>, reference: nat)
    requires forall k :: k in table ==> StayKeyOf(table[k]) == k
    requires forall i :: 0 <= i < |src| ==> reference <= src[i].unitAdmission
    ensures var delta := NewStays(src, EpimedStayKeys(table, Some(reference)));
            var after := InsertAll(table, delta, Commits([], |delta|), StayKeyOf, Itself);
            NewStays(src, EpimedStayKeys(after, Some(reference))) == []
  {
    var delta := NewStays(src, EpimedStayKeys(table, Some(reference)));
    var ok := Commits([], |delta|);
    var after := InsertAll(table, delta, ok, StayKeyOf, Itself);
    InsertAllEffect(table, delta, ok, StayKeyOf, Itself);
    InsertAllKeyed(table, delta, ok, StayKeyOf, Itself, StayKeyOf);
    var known := EpimedStayKeys(after, Some(reference));
    forall i | 0 <= i < |src| ensures StayKeyOf(src[i]) in known {
      var k := StayKeyOf(src[i]);
      if k in EpimedStayKeys(table, Some(reference)) {
        var k' :| k' in table && Since(table[k'].unitAdmission, Some(reference)) && StayKeyOf(table[k']) == k;
        assert after[k] == table[k];
      } else {
        assert src[i] in delta;
        var j :| 0 <= j < |delta| && delta[j] == src[i];
        assert ok[j];
        assert k in after;
      }
      assert k in after && Since(after[k].unitAdmission, Some(reference)) && StayKeyOf(after[k]) == k;
    }
    NewRecordsEmpty(src, known, StayKeyOf);
  }

  /** After the exams of a run are all stored, the same AGHU exams are no
      longer new. */
  lemma ExamsSettle(table: map<ExamKey, StoredExam>, src: seq<ExamRecord>, reference: nat)
    requires forall k :: k in table ==> StoredKeyOf(table[k]) == k
    requires forall i :: 0 <= i < |src| ==> reference <= src[i].result.createdAt
    ensures var delta := NewExams(src, EpimedExamKeys(table, Some(reference)));
            var after := InsertAll(table, delta, ExamOutcomes(delta, [], []), ExamKeyOf, ToStored);
            NewExams(src, EpimedExamKeys(after, Some(reference))) == []
  {
    var delta := NewExams(src, EpimedExamKeys(table, Some(reference)));
    var ok := ExamOutcomes(delta, [], []);
    var after := InsertAll(table, delta, ok, ExamKeyOf, ToStored);
    InsertAllEffect(table, delta, ok, ExamKeyOf, ToStored);
    InsertAllKeyed(table, delta, ok, ExamKeyOf, ToStored, StoredKeyOf);
    var known := EpimedExamKeys(after, Some(reference));
    forall i | 0 <= i < |src| ensures ExamKeyOf(src[i]) in known {
      var k := ExamKeyOf(src[i]);
      if k in EpimedExamKeys(table, Some(reference)) {
        var k' :| k' in table && Since(table[k'].takenAt, Some(reference)) && StoredKeyOf(table[k']) == k;
        assert after[k] == table[k];
      } else {
        assert src[i] in delta;
        var j :| 0 <= j < |delta| && delta[j] == src[i];
        assert ok[j];
        assert k in after;
      }
      assert k in after && Since(after[k].takenAt, Some(reference)) && StoredKeyOf(after[k]) == k;
    }
    NewRecordsEmpty(src, known, ExamKeyOf);
  }

  /** Running again over the same AGHU data after a run in which nothing
      failed finds no new stay and no new exam. */
  lemma RerunDetectsNoStaysOrExams(t: Tables, aghu: Aghu, reference: nat, started: nat, finished: nat)
    requires Consistent(t)
    ensures var once := RunEffect(t, aghu, reference, started, finished, NoFaults);
            Detect(once, aghu, reference).stays == [] && Detect(once, aghu, reference).exams == []
  {
    var since := Some(reference);
    var d := Detect(t, aghu, reference);
    var once := RunEffect(t, aghu, reference, started, finished, NoFaults);
    var stays := AghuStays(aghu.stays, since);
    assert once.stays == InsertAll(t.stays, d.stays, Commits([], |d.stays|), StayKeyOf, Itself);
    forall i | 0 <= i < |stays| ensures reference <= stays[i].unitAdmission {
      assert stays[i] in stays;
    }
    StaysSettle(t.stays, stays, reference);
    var exams := ExamJoin(aghu.stays, aghu.admissions, aghu.results, since);
    assert once.exams == InsertAll(t.exams, d.exams, ExamOutcomes(d.exams, [], []), ExamKeyOf, ToStored);
    forall i | 0 <= i < |exams| ensures reference <= exams[i].result.createdAt {
      ExamJoinEligible(aghu.stays, aghu.admissions, aghu.results, reference, exams[i]);
    }
    ExamsSettle(t.exams, exams, reference);
  }

  /** A run that finds no new stay and no new exam leaves those tables as
      they are, whatever fails in it. */
  lemma NothingNewChangesNothing(t: Tables, aghu: Aghu, reference: nat, started: nat, finished: nat, f: Faults)
    requires Detect(t, aghu, reference).stays == [] && Detect(t, aghu, reference).exams == []
    ensures RunEffect(t, aghu, reference, started, finished, f).stays == t.stays
    ensures RunEffect(t, aghu, reference, started, finished, f).exams == t.exams
  {
  }

  /** An AGHU admission (mr, number, date) is detected exactly when no
      stored row since the reference has that key; for a consistent table
      that is a question about the row stored under its own number. */
  lemma AdmissionDetected(t: Tables, aghu: Aghu, reference: nat, a: Admission)
    requires Consistent(t)
    requires a in AghuAdmissions(aghu.admissions, Some(reference))
    ensures a in Detect(t, aghu, reference).admissions
            <==> !(a.admissionNumber in t.admissions
                   && Since(t.admissions[a.admissionNumber].admissionDate, Some(reference))
                   && AdmissionKeyOf(t.admissions[a.admissionNumber]) == AdmissionKeyOf(a))
  {
    var keys := EpimedAdmissionKeys(t.admissions, Some(reference));
    if AdmissionKeyOf(a) in keys {
      var n :| n in t.admissions && Since(t.admissions[n].admissionDate, Some(reference))
               && AdmissionKeyOf(t.admissions[n]) == AdmissionKeyOf(a);
      assert n == a.admissionNumber;
    }
  }

  /** The admission diff compares (medical record, number, date) but the
      table keeps one row per number: an AGHU admission whose number is
      stored with another medical record or date is detected as new, the
      run leaves the row under that number as it was, and the next run
      detects the admission again. */
  lemma AdmissionRedetected(t: Tables, aghu: Aghu, reference: nat, started: nat, finished: nat, f: Faults, a: Admission)
    requires Consistent(t)
    requires a in AghuAdmissions(aghu.admissions, Some(reference))
    requires a.admissionNumber in t.admissions
    requires AdmissionKeyOf(t.admissions[a.admissionNumber]) != AdmissionKeyOf(a)
    ensures var once := RunEffect(t, aghu, reference, started, finished, f);
            && a in Detect(t, aghu, reference).admissions
            && a.admissionNumber in once.admissions
            && once.admissions[a.admissionNumber] == t.admissions[a.admissionNumber]
            && a in Detect(once, aghu, reference).admissions
  {
    var once := RunEffect(t, aghu, reference, started, finished, f);
    AdmissionDetected(t, aghu, reference, a);
    if f.readError.None? {
      var d := Detect(t, aghu, reference);
      AdmissionLoopEffect(t.admissions, d.admissions, f.admissionFaults, a.admissionNumber);
    }
    RunKeepsConsistent(t, aghu, reference, started, finished, f);
    AdmissionDetected(once, aghu, reference, a);
  }

  /** Every admission found new again after a clean run has its number in
      the table already. */
  lemma RedetectedNumbersStored(t: Tables, aghu: Aghu, reference: nat, started: nat, finished: nat, a: Admission)
    requires Consistent(t)
    requires a in AghuAdmissions(aghu.admissions, Some(reference))
    ensures a.admissionNumber in RunEffect(t, aghu, reference, started, finished, NoFaults).admissions
  {
    var d := Detect(t, aghu, reference);
    AdmissionLoopEffect(t.admissions, d.admissions, [], a.admissionNumber);
    if a in d.admissions {
      var j :| 0 <= j < |d.admissions| && d.admissions[j] == a;
      assert AdmissionCommits(d.admissions[j], FaultAt([], j));
    } else {
      AdmissionDetected(t, aghu, reference, a);
    }
  }

  /** Running again over the same AGHU data after a run in which nothing
      failed adds no admission row, whatever fails in the second run: what
      is detected again is already stored under its number. */
  lemma RerunAddsNoAdmissions(t: Tables, aghu: Aghu, reference: nat, s1: nat, e1: nat, s2: nat, e2: nat, f: Faults)
    requires Consistent(t)
    ensures var once := RunEffect(t, aghu, reference, s1, e1, NoFaults);
            RunEffect(once, aghu, reference, s2, e2, f).admissions == once.admissions
  {
    var once := RunEffect(t, aghu, reference, s1, e1, NoFaults);
    if f.readError.None? {
      var d := Detect(once, aghu, reference).admissions;
      forall i | 0 <= i < |d| ensures AdmissionNumber(d[i]) in once.admissions {
        assert d[i] in d;
        RedetectedNumbersStored(t, aghu, reference, s1, e1, d[i]);
      }
      InsertAllPresent(once.admissions, d, AdmissionOutcomes(d, f.admissionFaults), AdmissionNumber, Itself);
    }
  }

  // ---------------------------------------------------------------------
  // The discharge column
  // ---------------------------------------------------------------------

  /** As written, every AGHU admission reaches `inserir_internacoes` without
      a discharge key, so every statement raises: the loop reports 0 and the
      table is unchanged, however many admissions are new. */
  lemma AsWrittenAdmissionsNeverStored(table: map<string, Admission>, view: seq<AdmissionView>, reference: Option<nat>, known: set<AdmissionKey>, faults: seq<bool>)
    ensures var rows := NewAdmissions(AghuAdmissionsAsWritten(view, reference), known);
            var ok := AdmissionOutcomes(rows, faults);
            && Successes(ok) == 0
            && InsertAll(table, rows, ok, AdmissionNumber, Itself) == table
  {
    var rows := NewAdmissions(AghuAdmissionsAsWritten(view, reference), known);
    var ok := AdmissionOutcomes(rows, faults);
    forall i | 0 <= i < |rows| ensures !ok[i] {
      assert rows[i] in rows;
    }
    InsertAllNoneOk(table, rows, ok, AdmissionNumber, Itself);
  }

  /** With the discharge bound as NULL and no failing statement, every new
      admission is counted and its number is in the table afterwards. */
  lemma CorrectedAdmissionsStored(table: map<string, Admission>, view: seq<AdmissionView>, reference: Option<nat>, known: set<AdmissionKey>)
    ensures var rows := NewAdmissions(AghuAdmissions(view, reference), known);
            var ok := AdmissionOutcomes(rows, []);
            var after := InsertAll(table, rows, ok, AdmissionNumber, Itself);
            && Successes(ok) == |rows|
            && forall i :: 0 <= i < |rows| ==> rows[i].admissionNumber in after
  {
    var rows := NewAdmissions(AghuAdmissions(view, reference), known);
    var ok := AdmissionOutcomes(rows, []);
    forall i | 0 <= i < |rows| ensures ok[i] {
      assert rows[i] in rows;
    }
    forall i | 0 <= i < |rows| ensures rows[i].admissionNumber in InsertAll(table, rows, ok, AdmissionNumber, Itself) {
      AdmissionLoopEffect(table, rows, [], rows[i].admissionNumber);
    }
  }
}
