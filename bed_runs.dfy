/** What the two bed routines of `scripts/verificar_leitos.py` guarantee:
    exact detection, the life of a log row, which beds are announced, and
    that a run in which nothing fails leaves nothing to detect. */
module BedRuns {
  import opened Wrappers
  import opened Text
  import opened Clock
  import opened Reconcile
  import opened OrderedDict
  import opened BedMessage
  import opened BedSync

  // ---------------------------------------------------------------------
  // Reading both sides
  // ---------------------------------------------------------------------

  /** The AGHU dictionary holds exactly the bed codes of the rows, each with
      a row of that code (the last one). */
  lemma AghuBedsKeyed(rows: seq<AghuBed>, k: string)
    ensures k in AghuBeds(rows).values <==> exists i :: 0 <= i < |rows| && rows[i].bedCode == k
    ensures k in AghuBeds(rows).values ==> AghuBeds(rows).values[k].bedCode == k && AghuBeds(rows).values[k] in rows
  {
    var pairs := AghuPairs(rows);
    DictOfKeys(pairs, k);
    if exists i :: 0 <= i < |rows| && rows[i].bedCode == k {
      var i :| 0 <= i < |rows| && rows[i].bedCode == k;
      assert pairs[i].0 == k;
    }
    if k in AghuBeds(rows).values {
      DictOfValue(pairs, k);
      var i :| 0 <= i < |pairs| && pairs[i] == (k, AghuBeds(rows).values[k]);
      assert rows[i] == AghuBeds(rows).values[k];
    }
  }

  /** The Epimed dictionary holds exactly the client ids of the rows. */
  lemma EpimedBedsKeys(rows: seq<BedRow>, k: string)
    ensures k in EpimedBeds(rows).values <==> exists i :: 0 <= i < |rows| && rows[i].clientId == k
  {
    var pairs := EpimedPairs(rows);
    DictOfKeys(pairs, k);
    if exists i :: 0 <= i < |rows| && rows[i].clientId == k {
      var i :| 0 <= i < |rows| && rows[i].clientId == k;
      assert pairs[i].0 == k;
    }
  }

  // ---------------------------------------------------------------------
  // Detection
  // ---------------------------------------------------------------------

  /** Every Epimed bed that differs from AGHU among the first `n` is in the
      changes after `n` beds. */
  lemma {:induction false} StatusChangesUpToComplete(epimed: Dict<string, (string, string)>, aghu: Dict<string, AghuBed>,
                                                     m: nat, n: nat)
    requires Valid(epimed) && m < n <= |epimed.keys|
    requires epimed.keys[m] in aghu.values && epimed.values[epimed.keys[m]].1 != aghu.values[epimed.keys[m]].situation
    ensures (epimed.keys[m], aghu.values[epimed.keys[m]].situation) in StatusChangesUpTo(epimed, aghu, n)
  {
    if m < n - 1 {
      StatusChangesUpToComplete(epimed, aghu, m, n - 1);
    }
  }

  /** A status change is reported exactly for a bed present on both sides
      whose Epimed status differs from its AGHU situation, and it carries
      the AGHU situation; Epimed-only beds are never reported. */
  lemma StatusChangesExactly(epimed: Dict<string, (string, string)>, aghu: Dict<string, AghuBed>, k: string, s: string)
    requires Valid(epimed)
    ensures (k, s) in StatusChanges(epimed, aghu)
            <==> k in epimed.values && k in aghu.values && epimed.values[k].1 != aghu.values[k].situation
                 && s == aghu.values[k].situation
  {
    var changes := StatusChanges(epimed, aghu);
    if (k, s) in changes {
      var i :| 0 <= i < |changes| && changes[i] == (k, s);
    }
    if k in epimed.values && k in aghu.values && epimed.values[k].1 != aghu.values[k].situation {
      var m :| 0 <= m < |epimed.keys| && epimed.keys[m] == k;
      StatusChangesUpToComplete(epimed, aghu, m, |epimed.keys|);
    }
  }

  /** The keys of the changes after `n` beds are among the first `n` keys. */
  lemma {:induction false} StatusChangesUpToKeys(epimed: Dict<string, (string, string)>, aghu: Dict<string, AghuBed>, n: nat)
    requires Valid(epimed) && n <= |epimed.keys|
    ensures forall i :: 0 <= i < |StatusChangesUpTo(epimed, aghu, n)| ==> StatusChangesUpTo(epimed, aghu, n)[i].0 in epimed.keys[..n]
    ensures forall i, j :: 0 <= i < j < |StatusChangesUpTo(epimed, aghu, n)| ==>
              StatusChangesUpTo(epimed, aghu, n)[i].0 != StatusChangesUpTo(epimed, aghu, n)[j].0
  {
    if n > 0 {
      StatusChangesUpToKeys(epimed, aghu, n - 1);
      var rest := StatusChangesUpTo(epimed, aghu, n - 1);
      var changes := StatusChangesUpTo(epimed, aghu, n);
      var k := epimed.keys[n - 1];
      assert epimed.keys[..n] == epimed.keys[..n - 1] + [k];
      assert k !in epimed.keys[..n - 1];
      forall i | 0 <= i < |changes| ensures changes[i].0 in epimed.keys[..n] {
        if i < |rest| {
          assert changes[i] == rest[i];
        }
      }
      forall i, j | 0 <= i < j < |changes| ensures changes[i].0 != changes[j].0 {
        if j < |rest| {
          assert changes[i] == rest[i] && changes[j] == rest[j];
        } else {
          assert changes[i] == rest[i] && changes[j].0 == k;
        }
      }
    }
  }

  /** Each bed is reported at most once: `alteracoes` is a dictionary. */
  lemma StatusChangesDistinct(epimed: Dict<string, (string, string)>, aghu: Dict<string, AghuBed>)
    requires Valid(epimed)
    ensures forall i, j :: 0 <= i < j < |StatusChanges(epimed, aghu)| ==>
              StatusChanges(epimed, aghu)[i].0 != StatusChanges(epimed, aghu)[j].0
  {
    StatusChangesUpToKeys(epimed, aghu, |epimed.keys|);
  }

  /** Once every AGHU bed is known to Epimed, no bed is new. */
  lemma NoNewBedsWhenKnown(aghu: Dict<string, AghuBed>, epimed: Dict<string, (string, string)>)
    requires Valid(aghu)
    requires forall k :: k in aghu.values ==> k in epimed.values
    ensures NewBeds(aghu, epimed) == []
  {
    forall i | 0 <= i < |aghu.keys| ensures Itself(aghu.keys[i]) in epimed.values {
      assert aghu.keys[i] in aghu.keys;
    }
    NoDeltaWhenPresent(aghu.keys, epimed.values, Itself);
  }

  /** Once every bed on both sides agrees with AGHU, no change is detected. */
  lemma {:induction false} StatusChangesUpToNone(epimed: Dict<string, (string, string)>, aghu: Dict<string, AghuBed>, n: nat)
    requires Valid(epimed) && n <= |epimed.keys|
    requires forall k :: k in epimed.values && k in aghu.values ==> epimed.values[k].1 == aghu.values[k].situation
    ensures StatusChangesUpTo(epimed, aghu, n) == []
  {
    if n > 0 {
      StatusChangesUpToNone(epimed, aghu, n - 1);
      assert epimed.keys[n - 1] in epimed.keys;
    }
  }

  /** With every AGHU bed known to Epimed, the first routine returns early
      and changes nothing. */
  lemma NoNewBedsNoChange(db: Epimed, aghuRows: seq<AghuBed>, created: map<string, nat>, ios: seq<BedIo>, now: nat)
    requires forall i :: 0 <= i < |aghuRows| ==> aghuRows[i].bedCode in EpimedBeds(db.beds).values
    ensures NewBedsRoutine(db, aghuRows, created, ios, now) == Progress(db, Completed)
  {
    var aghu := AghuBeds(aghuRows);
    var ids := NewBeds(aghu, EpimedBeds(db.beds));
    if ids != [] {
      assert ids[0] in ids;
      AghuBedsKeyed(aghuRows, ids[0]);
    }
  }

  // ---------------------------------------------------------------------
  // One bed
  // ---------------------------------------------------------------------

  /** Nothing fails and the transport answers. */
  predicate Clean(io: BedIo)
  {
    !io.logFails && io.answer.Response? && !io.responseFails && !io.writeFails
  }

  /** The row logged pending for a bed, once answered, is the last row of
      the log, sent, with its own id, the message and the response. */
  lemma AnsweredLog(db: Epimed, k: string, now: nat, message: string, response: string)
    ensures var answered := WithResponse(WithPendingLog(db, k, now), |db.log| + 1, message, response);
            && answered.beds == db.beds
            && answered.log == db.log + [LogRow(k, now, Sent, |db.log| + 1, Some(message), Some(response))]
  {
    assert (db.log + [LogRow(k, now, Pending, 1, None, None)])[|db.log|] == LogRow(k, now, Pending, 1, None, None);
  }

  /** A new active bed whose creation date is known: its log row is added
      pending and ends sent, holding the message and the response, with its
      own id in `id_log`; the bed is inserted active since its creation,
      whatever the response says. */
  lemma ActiveBedAnnounced(db: Epimed, k: string, b: AghuBed, created: nat, io: BedIo, now: nat)
    requires b.situation == "A" && Clean(io)
    ensures var p := NewBedStep(db, k, b, Some(created), io, now);
            var id := |db.log| + 1;
            && p.outcome == Completed
            && p.db.log == db.log + [LogRow(k, now, Sent, id,
                                            Some(Message(Notice(b, Some(DateTimeText(created)), None, id, now))),
                                            Some(io.answer.body))]
            && p.db.beds == db.beds + [BedRow(k, k, "A", Some(DateTimeText(created)), None)]
  {
    var id := |db.log| + 1;
    var active := Formatted(Some(created));
    var message := Message(Notice(b, active, None, id, now));
    var answered := WithResponse(WithPendingLog(db, k, now), id, message, io.answer.body);
    assert NewBedStep(db, k, b, Some(created), io, now) == Progress(WithBed(answered, k, "A", active), Completed);
    AnsweredLog(db, k, now, message, io.answer.body);
  }

  /** A `RequestException` while announcing a new active bed leaves its log
      row pending, without message or response, and the bed uninserted; the
      loop goes on. */
  lemma NewBedPendingOnRequestError(db: Epimed, k: string, b: AghuBed, created: nat, io: BedIo, now: nat)
    requires b.situation == "A" && !io.logFails && io.answer.RequestError?
    ensures NewBedStep(db, k, b, Some(created), io, now)
            == Progress(Epimed(db.beds, db.log + [LogRow(k, now, Pending, 1, None, None)]), Completed)
  {
  }

  /** A new bed that is not active gets no log row and no message: it is
      inserted with no activation date, or the failing insert aborts. */
  lemma InactiveBedInserted(db: Epimed, k: string, b: AghuBed, created: Option<nat>, io: BedIo, now: nat)
    requires b.situation != "A"
    ensures NewBedStep(db, k, b, created, io, now)
            == if io.writeFails then Progress(db, Aborted(k))
               else Progress(Epimed(db.beds + [BedRow(k, k, b.situation, None, None)], db.log), Completed)
  {
  }

  /** An active bed without a creation date aborts the routine before
      anything is written (`None.strftime`). */
  lemma MissingCreationDateAborts(db: Epimed, k: string, b: AghuBed, io: BedIo, now: nat)
    requires b.situation == "A"
    ensures NewBedStep(db, k, b, None, io, now) == Progress(db, Aborted(k))
  {
  }

  /** A status change in which nothing fails: the log row ends sent with the
      message and the response, and every row of the bed takes the new
      status and the dates that were found. */
  lemma StatusChangeAnnounced(db: Epimed, k: string, status: string, b: AghuBed,
                              dates: (Option<string>, Option<string>), io: BedIo, now: nat)
    requires dates.0.Some? ==> WellFormedStamp(dates.0.value)
    requires dates.1.Some? ==> WellFormedStamp(dates.1.value)
    requires Clean(io)
    ensures var p := StatusStep(db, k, status, b, dates, io, now);
            var id := |db.log| + 1;
            && p.outcome == Completed
            && p.db.log == db.log + [LogRow(k, now, Sent, id, Some(Message(Notice(b, dates.0, dates.1, id, now))),
                                            Some(io.answer.body))]
            && p.db.beds == UpdatedRows(db.beds, k, status, dates.0, dates.1)
  {
    var id := |db.log| + 1;
    var message := Message(Notice(b, dates.0, dates.1, id, now));
    var answered := WithResponse(WithPendingLog(db, k, now), id, message, io.answer.body);
    assert StatusStep(db, k, status, b, dates, io, now) == Progress(WithStatus(answered, k, status, dates.0, dates.1), Completed);
    AnsweredLog(db, k, now, message, io.answer.body);
  }

  /** A `RequestException` during a status change leaves the log row
      pending and the bed as it was; the loop goes on. */
  lemma StatusPendingOnRequestError(db: Epimed, k: string, status: string, b: AghuBed,
                                    dates: (Option<string>, Option<string>), io: BedIo, now: nat)
    requires dates.0.Some? ==> WellFormedStamp(dates.0.value)
    requires dates.1.Some? ==> WellFormedStamp(dates.1.value)
    requires !io.logFails && io.answer.RequestError?
    ensures StatusStep(db, k, status, b, dates, io, now)
            == Progress(Epimed(db.beds, db.log + [LogRow(k, now, Pending, 1, None, None)]), Completed)
  {
  }

  /** The client id of every message is the id of the log row created for
      it: OBR-2 of the message reads back as that id. */
  lemma ClientIdIsLogId(b: AghuBed, active: Option<string>, disable: Option<string>, id: nat, now: nat)
    requires active.Some? ==> WellFormedStamp(active.value)
    requires disable.Some? ==> WellFormedStamp(disable.value)
    requires PlainNotice(Notice(b, active, disable, id, now))
    ensures var segments := Split(Message(Notice(b, active, disable, id, now)), '\n');
            && |segments| == 5
            && var obr := Split(segments[3], '|');
            && |obr| == 36 && AllDigits(obr[2]) && DecimalValue(obr[2]) == id
  {
    MessageFields(Notice(b, active, disable, id, now));
  }

  // ---------------------------------------------------------------------
  // The new-bed routine
  // ---------------------------------------------------------------------

  /** `after` extends the log `before`, and every added row is for a bed
      of `ids` that is active in AGHU. */
  predicate LogAppended(before: seq<LogRow>, after: seq<LogRow>, aghu: Dict<string, AghuBed>, ids: seq<string>)
  {
    && |before| <= |after| && after[..|before|] == before
    && forall i :: |before| <= i < |after| ==>
         after[i].bedId in ids && after[i].bedId in aghu.values && aghu.values[after[i].bedId].situation == "A"
  }

  /** `after` extends the bed rows `before`, and every added row is for a
      bed of `ids`. */
  predicate BedsAppended(before: seq<BedRow>, after: seq<BedRow>, ids: seq<string>)
  {
    && |before| <= |after| && after[..|before|] == before
    && forall i :: |before| <= i < |after| ==> after[i].clientId in ids
  }

  lemma LogAppendedChain(a: seq<LogRow>, b: seq<LogRow>, c: seq<LogRow>, aghu: Dict<string, AghuBed>,
                         first: seq<string>, second: seq<string>, ids: seq<string>)
    requires LogAppended(a, b, aghu, first) && LogAppended(b, c, aghu, second)
    requires forall x :: x in first ==> x in ids
    requires forall x :: x in second ==> x in ids
    ensures LogAppended(a, c, aghu, ids)
  {
    assert c[..|a|] == c[..|b|][..|a|];
    forall i | |a| <= i < |c|
      ensures c[i].bedId in ids && c[i].bedId in aghu.values && aghu.values[c[i].bedId].situation == "A"
    {
      if i < |b| {
        assert c[i] == c[..|b|][i];
      }
    }
  }

  lemma BedsAppendedChain(a: seq<BedRow>, b: seq<BedRow>, c: seq<BedRow>,
                          first: seq<string>, second: seq<string>, ids: seq<string>)
    requires BedsAppended(a, b, first) && BedsAppended(b, c, second)
    requires forall x :: x in first ==> x in ids
    requires forall x :: x in second ==> x in ids
    ensures BedsAppended(a, c, ids)
  {
    assert c[..|a|] == c[..|b|][..|a|];
    forall i | |a| <= i < |c| ensures c[i].clientId in ids {
      if i < |b| {
        assert c[i] == c[..|b|][i];
      }
    }
  }

  /** One new bed only appends: at most one log row, only when the bed is
      active, and at most one bed row, both for that bed. */
  lemma NewBedStepAppends(db: Epimed, aghu: Dict<string, AghuBed>, k: string, created: Option<nat>, io: BedIo, now: nat)
    requires k in aghu.values
    ensures var p := NewBedStep(db, k, aghu.values[k], created, io, now);
            && LogAppended(db.log, p.db.log, aghu, [k]) && |p.db.log| <= |db.log| + 1
            && BedsAppended(db.beds, p.db.beds, [k]) && |p.db.beds| <= |db.beds| + 1
  {
    var b := aghu.values[k];
    if b.situation == "A" && created.Some? && !io.logFails {
      var active := Formatted(created);
      var id := |db.log| + 1;
      AnnouncedStepAppends(db, aghu, k, active, Message(Notice(b, active, None, id, now)), io, now);
    } else {
      LogAppendedNone(db.log, aghu, [k]);
      BedsAppendedNone(db.beds, [k]);
      BedsAppendedOne(db.beds, BedRow(k, k, b.situation, None, None), k);
    }
  }

  lemma AnnouncedStepAppends(db: Epimed, aghu: Dict<string, AghuBed>, k: string, active: Option<string>,
                             message: string, io: BedIo, now: nat)
    requires k in aghu.values && aghu.values[k].situation == "A"
    ensures var p := AnnouncedStep(WithPendingLog(db, k, now), k, active, |db.log| + 1, message, io);
            && LogAppended(db.log, p.db.log, aghu, [k]) && |p.db.log| == |db.log| + 1
            && BedsAppended(db.beds, p.db.beds, [k]) && |p.db.beds| <= |db.beds| + 1
  {
    var logged := WithPendingLog(db, k, now);
    LogAppendedOne(db.log, logged.log[|db.log|], aghu, k);
    if io.answer.Response? {
      var answered := WithResponse(logged, |db.log| + 1, message, io.answer.body);
      AnsweredLog(db, k, now, message, io.answer.body);
      LogAppendedOne(db.log, answered.log[|db.log|], aghu, k);
    }
    BedsAppendedNone(db.beds, [k]);
    BedsAppendedOne(db.beds, BedRow(k, k, "A", active, None), k);
    assert logged.log == db.log + [logged.log[|db.log|]];
  }

  lemma LogAppendedNone(log: seq<LogRow>, aghu: Dict<string, AghuBed>, ids: seq<string>)
    ensures LogAppended(log, log, aghu, ids)
  {
    assert log[..|log|] == log;
  }

  lemma LogAppendedOne(log: seq<LogRow>, row: LogRow, aghu: Dict<string, AghuBed>, k: string)
    requires row.bedId == k && k in aghu.values && aghu.values[k].situation == "A"
    ensures LogAppended(log, log + [row], aghu, [k])
  {
    assert (log + [row])[..|log|] == log;
  }

  lemma BedsAppendedNone(beds: seq<BedRow>, ids: seq<string>)
    ensures BedsAppended(beds, beds, ids)
  {
    assert beds[..|beds|] == beds;
  }

  lemma BedsAppendedOne(beds: seq<BedRow>, row: BedRow, k: string)
    requires row.clientId == k
    ensures BedsAppended(beds, beds + [row], [k])
  {
    assert (beds + [row])[..|beds|] == beds;
  }

  /** The new-bed routine only appends to both tables; every log row it
      adds names a new bed that is active, and every bed row a new bed. */
  lemma {:induction false} NewBedsRunAppends(db: Epimed, aghu: Dict<string, AghuBed>, ids: seq<string>,
                                             created: map<string, nat>, ios: seq<BedIo>, now: nat)
    requires forall i :: 0 <= i < |ids| ==> ids[i] in aghu.values
    ensures var p := NewBedsRun(db, aghu, ids, created, ios, now);
            LogAppended(db.log, p.db.log, aghu, ids) && BedsAppended(db.beds, p.db.beds, ids)
  {
    if ids == [] {
      assert db.log[..|db.log|] == db.log && db.beds[..|db.beds|] == db.beds;
    } else {
      var n := |ids| - 1;
      var init := ids[..n];
      var k := ids[n];
      NewBedsRunAppends(db, aghu, init, created, ios, now);
      var q := NewBedsRun(db, aghu, init, created, ios, now);
      var p := NewBedsRun(db, aghu, ids, created, ios, now);
      assert forall x :: x in init ==> x in ids;
      if q.outcome.Aborted? {
        assert p == q;
        LogAppendedChain(db.log, q.db.log, p.db.log, aghu, init, [], ids);
        BedsAppendedChain(db.beds, q.db.beds, p.db.beds, init, [], ids);
      } else {
        assert p == NewBedStep(q.db, k, aghu.values[k], Lookup(created, k), IoAt(ios, n), now);
        NewBedStepAppends(q.db, aghu, k, Lookup(created, k), IoAt(ios, n), now);
        LogAppendedChain(db.log, q.db.log, p.db.log, aghu, init, [k], ids);
        BedsAppendedChain(db.beds, q.db.beds, p.db.beds, init, [k], ids);
      }
    }
  }

  /** `after` is `before` with one row per bed of `ids`, in order, each
      with the AGHU situation as status. */
  predicate BedsAdded(before: seq<BedRow>, after: seq<BedRow>, aghu: Dict<string, AghuBed>, ids: seq<string>)
  {
    && |after| == |before| + |ids| && after[..|before|] == before
    && forall j :: 0 <= j < |ids| ==>
         after[|before| + j].clientId == ids[j] && ids[j] in aghu.values
         && after[|before| + j].bedStatus == aghu.values[ids[j]].situation
  }

  lemma BedsAddedOne(a: seq<BedRow>, b: seq<BedRow>, aghu: Dict<string, AghuBed>, ids: seq<string>, row: BedRow)
    requires |ids| > 0 && BedsAdded(a, b, aghu, ids[..|ids| - 1])
    requires row.clientId == ids[|ids| - 1] && ids[|ids| - 1] in aghu.values
    requires row.bedStatus == aghu.values[ids[|ids| - 1]].situation
    ensures BedsAdded(a, b + [row], aghu, ids)
  {
    var c := b + [row];
    assert c[..|a|] == b[..|a|];
    forall j | 0 <= j < |ids|
      ensures c[|a| + j].clientId == ids[j] && ids[j] in aghu.values
      ensures c[|a| + j].bedStatus == aghu.values[ids[j]].situation
    {
      if j < |ids| - 1 {
        assert c[|a| + j] == b[|a| + j];
        assert ids[..|ids| - 1][j] == ids[j];
      }
    }
  }

  /** One new bed in which nothing fails, with its creation date if it is
      active: the routine goes on, with one bed row for it. */
  lemma CleanNewBedStep(db: Epimed, k: string, b: AghuBed, created: Option<nat>, io: BedIo, now: nat)
    requires Clean(io) && (b.situation == "A" ==> created.Some?)
    ensures var p := NewBedStep(db, k, b, created, io, now);
            && p.outcome == Completed
            && exists row :: p.db.beds == db.beds + [row] && row.clientId == k && row.bedStatus == b.situation
  {
    if b.situation == "A" {
      ActiveBedAnnounced(db, k, b, created.value, io, now);
      var row := BedRow(k, k, "A", Some(DateTimeText(created.value)), None);
      assert NewBedStep(db, k, b, created, io, now).db.beds == db.beds + [row];
    } else {
      InactiveBedInserted(db, k, b, created, io, now);
      var row := BedRow(k, k, b.situation, None, None);
      assert NewBedStep(db, k, b, created, io, now).db.beds == db.beds + [row];
    }
  }

  /** With nothing failing and a creation date for every active bed, the
      loop completes and adds one bed row per new bed, in order, with the
      AGHU situation as status. */
  lemma {:induction false} NewBedsRunClean(db: Epimed, aghu: Dict<string, AghuBed>, ids: seq<string>,
                                           created: map<string, nat>, ios: seq<BedIo>, now: nat)
    requires forall i :: 0 <= i < |ids| ==> ids[i] in aghu.values
    requires forall i :: 0 <= i < |ids| ==> Clean(IoAt(ios, i))
    requires forall i :: 0 <= i < |ids| && aghu.values[ids[i]].situation == "A" ==> ids[i] in created
    ensures var p := NewBedsRun(db, aghu, ids, created, ios, now);
            p.outcome == Completed && BedsAdded(db.beds, p.db.beds, aghu, ids)
  {
    if ids == [] {
      assert db.beds[..|db.beds|] == db.beds;
    } else {
      var n := |ids| - 1;
      var k := ids[n];
      NewBedsRunClean(db, aghu, ids[..n], created, ios, now);
      var q := NewBedsRun(db, aghu, ids[..n], created, ios, now);
      var p := NewBedsRun(db, aghu, ids, created, ios, now);
      assert p == NewBedStep(q.db, k, aghu.values[k], Lookup(created, k), IoAt(ios, n), now);
      CleanNewBedStep(q.db, k, aghu.values[k], Lookup(created, k), IoAt(ios, n), now);
      var row :| p.db.beds == q.db.beds + [row] && row.clientId == k && row.bedStatus == aghu.values[k].situation;
      BedsAddedOne(db.beds, q.db.beds, aghu, ids, row);
    }
  }

  /** The new-bed routine settles: when nothing fails and every active bed
      has a creation date, afterwards every AGHU bed is known to Epimed, so
      a second run finds no new bed. */
  lemma NewBedsSettle(db: Epimed, aghuRows: seq<AghuBed>, created: map<string, nat>, ios: seq<BedIo>, now: nat)
    requires forall i :: 0 <= i < |ios| ==> Clean(ios[i])
    requires forall i :: 0 <= i < |aghuRows| && aghuRows[i].situation == "A" ==> aghuRows[i].bedCode in created
    ensures var p := NewBedsRoutine(db, aghuRows, created, ios, now);
            && p.outcome == Completed
            && (forall k :: k in AghuBeds(aghuRows).values ==> k in EpimedBeds(p.db.beds).values)
            && NewBeds(AghuBeds(aghuRows), EpimedBeds(p.db.beds)) == []
  {
    var aghu := AghuBeds(aghuRows);
    var ids := NewBeds(aghu, EpimedBeds(db.beds));
    NewBedsCreated(aghuRows, ids, created);
    NewBedsRunClean(db, aghu, ids, created, ios, now);
    var p := NewBedsRoutine(db, aghuRows, created, ios, now);
    assert p == NewBedsRun(db, aghu, ids, created, ios, now);
    forall k | k in aghu.values ensures k in EpimedBeds(p.db.beds).values {
      KnownAfterRun(db.beds, p.db.beds, aghu, ids, k);
    }
    NoNewBedsWhenKnown(aghu, EpimedBeds(p.db.beds));
  }

  /** The new beds are AGHU beds, and those that are active have a creation
      date when every active AGHU row has one. */
  lemma NewBedsCreated(aghuRows: seq<AghuBed>, ids: seq<string>, created: map<string, nat>)
    requires forall k :: k in ids ==> k in AghuBeds(aghuRows).values
    requires forall i :: 0 <= i < |aghuRows| && aghuRows[i].situation == "A" ==> aghuRows[i].bedCode in created
    ensures forall i :: 0 <= i < |ids| ==> ids[i] in AghuBeds(aghuRows).values
    ensures forall i :: 0 <= i < |ids| && AghuBeds(aghuRows).values[ids[i]].situation == "A" ==> ids[i] in created
  {
    forall i | 0 <= i < |ids| ensures ids[i] in AghuBeds(aghuRows).values {
      assert ids[i] in ids;
    }
    forall i | 0 <= i < |ids| && AghuBeds(aghuRows).values[ids[i]].situation == "A" ensures ids[i] in created {
      AghuBedsKeyed(aghuRows, ids[i]);
      var j :| 0 <= j < |aghuRows| && aghuRows[j] == AghuBeds(aghuRows).values[ids[i]];
    }
  }

  /** An AGHU bed is known after the run when it was known before or was
      one of the new beds the run added. */
  lemma KnownAfterRun(before: seq<BedRow>, after: seq<BedRow>, aghu: Dict<string, AghuBed>, ids: seq<string>, k: string)
    requires BedsAdded(before, after, aghu, ids)
    requires k in aghu.values
    requires forall x :: x in ids <==> x in aghu.values && x !in EpimedBeds(before).values
    ensures k in EpimedBeds(after).values
  {
    EpimedBedsKeys(after, k);
    if k in EpimedBeds(before).values {
      EpimedBedsKeys(before, k);
      var i :| 0 <= i < |before| && before[i].clientId == k;
      assert after[..|before|][i] == before[i];
    } else {
      assert k in ids;
      var j :| 0 <= j < |ids| && ids[j] == k;
      assert after[|before| + j].clientId == k;
    }
  }

  // ---------------------------------------------------------------------
  // The status routine
  // ---------------------------------------------------------------------

  /** The bed rows after the updates of `changes`, all of them succeeding. */
  function UpdatedAll(rows: seq<BedRow>, changes: seq<(string, string)>,
                      activation: map<string, nat>, deactivation: map<string, nat>): seq<BedRow>
  {
    if changes == [] then rows
    else
      var c := changes[|changes| - 1];
      var dates := StatusDates(c.1, c.0, activation, deactivation);
      UpdatedRows(UpdatedAll(rows, changes[..|changes| - 1], activation, deactivation), c.0, c.1, dates.0, dates.1)
  }

  /** One status change in which nothing fails: the loop goes on, and the
      rows of the bed are updated. */
  lemma CleanStatusStep(db: Epimed, k: string, status: string, b: AghuBed,
                        dates: (Option<string>, Option<string>), io: BedIo, now: nat)
    requires dates.0.Some? ==> WellFormedStamp(dates.0.value)
    requires dates.1.Some? ==> WellFormedStamp(dates.1.value)
    requires Clean(io)
    ensures var p := StatusStep(db, k, status, b, dates, io, now);
            p.outcome == Completed && p.db.beds == UpdatedRows(db.beds, k, status, dates.0, dates.1)
  {
  }

  /** With nothing failing, the update loop completes and its bed rows are
      the rows after every update. */
  lemma {:induction false} StatusRunClean(db: Epimed, aghu: Dict<string, AghuBed>, changes: seq<(string, string)>,
                                          activation: map<string, nat>, deactivation: map<string, nat>,
                                          ios: seq<BedIo>, now: nat)
    requires forall i :: 0 <= i < |changes| ==> changes[i].0 in aghu.values
    requires forall i :: 0 <= i < |changes| ==> Clean(IoAt(ios, i))
    ensures var p := StatusRun(db, aghu, changes, activation, deactivation, ios, now);
            p.outcome == Completed && p.db.beds == UpdatedAll(db.beds, changes, activation, deactivation)
  {
    if changes != [] {
      var n := |changes| - 1;
      StatusRunClean(db, aghu, changes[..n], activation, deactivation, ios, now);
      var q := StatusRun(db, aghu, changes[..n], activation, deactivation, ios, now);
      var k, status := changes[n].0, changes[n].1;
      CleanStatusStep(q.db, k, status, aghu.values[k], StatusDates(status, k, activation, deactivation), IoAt(ios, n), now);
    }
  }

  /** What one update does to the Epimed dictionary: the client ids stay,
      the updated bed takes the new status, every other bed is untouched. */
  lemma EpimedBedsUpdated(rows: seq<BedRow>, k: string, status: string, active: Option<string>, disable: Option<string>)
    ensures EpimedBeds(UpdatedRows(rows, k, status, active, disable)).values.Keys == EpimedBeds(rows).values.Keys
    ensures forall x :: x in EpimedBeds(rows).values ==>
              EpimedBeds(UpdatedRows(rows, k, status, active, disable)).values[x]
              == if x == k then (EpimedBeds(rows).values[x].0, status) else EpimedBeds(rows).values[x]
  {
    var f := (key: string, v: (string, string)) => if key == k then (v.0, status) else v;
    var updated := UpdatedRows(rows, k, status, active, disable);
    assert EpimedPairs(updated) == MapValues(EpimedPairs(rows), f);
    DictOfMapValues(EpimedPairs(rows), f);
  }

  /** After the updates of distinct beds, each updated bed has its new
      status, and every other bed keeps its entry. */
  lemma {:induction false} UpdatedAllStatuses(rows: seq<BedRow>, changes: seq<(string, string)>,
                                              activation: map<string, nat>, deactivation: map<string, nat>)
    requires forall i, j :: 0 <= i < j < |changes| ==> changes[i].0 != changes[j].0
    ensures var before := EpimedBeds(rows).values;
            var after := EpimedBeds(UpdatedAll(rows, changes, activation, deactivation)).values;
            && after.Keys == before.Keys
            && (forall j :: 0 <= j < |changes| && changes[j].0 in before ==> after[changes[j].0].1 == changes[j].1)
            && (forall x :: x in before && (forall j :: 0 <= j < |changes| ==> changes[j].0 != x) ==> after[x] == before[x])
  {
    if changes != [] {
      var n := |changes| - 1;
      var init := changes[..n];
      UpdatedAllStatuses(rows, init, activation, deactivation);
      UpdatedAllLast(rows, changes, activation, deactivation);
      StatusesStep(EpimedBeds(rows).values, EpimedBeds(UpdatedAll(rows, init, activation, deactivation)).values,
                   EpimedBeds(UpdatedAll(rows, changes, activation, deactivation)).values, changes);
    }
  }

  /** The last update of `UpdatedAll`, seen in the Epimed dictionary. */
  lemma UpdatedAllLast(rows: seq<BedRow>, changes: seq<(string, string)>,
                       activation: map<string, nat>, deactivation: map<string, nat>)
    requires changes != []
    ensures var c := changes[|changes| - 1];
            var middle := EpimedBeds(UpdatedAll(rows, changes[..|changes| - 1], activation, deactivation)).values;
            var after := EpimedBeds(UpdatedAll(rows, changes, activation, deactivation)).values;
            && after.Keys == middle.Keys
            && forall x :: x in middle ==> after[x] == if x == c.0 then (middle[x].0, c.1) else middle[x]
  {
    var c := changes[|changes| - 1];
    var dates := StatusDates(c.1, c.0, activation, deactivation);
    EpimedBedsUpdated(UpdatedAll(rows, changes[..|changes| - 1], activation, deactivation), c.0, c.1, dates.0, dates.1);
  }

  /** The step of `UpdatedAllStatuses`, on the dictionaries alone: one more
      update of a bed not updated before. */
  lemma StatusesStep(before: map<string, (string, string)>, middle: map<string, (string, string)>,
                     after: map<string, (string, string)>, changes: seq<(string, string)>)
    requires changes != []
    requires var n := |changes| - 1;
             forall j :: 0 <= j < n ==> changes[j].0 != changes[n].0
    requires middle.Keys == before.Keys
    requires var init := changes[..|changes| - 1];
             forall j :: 0 <= j < |init| && init[j].0 in before ==> middle[init[j].0].1 == init[j].1
    requires var init := changes[..|changes| - 1];
             forall x :: x in before && (forall j :: 0 <= j < |init| ==> init[j].0 != x) ==> middle[x] == before[x]
    requires after.Keys == middle.Keys
    requires var c := changes[|changes| - 1];
             forall x :: x in middle ==> after[x] == if x == c.0 then (middle[x].0, c.1) else middle[x]
    ensures after.Keys == before.Keys
    ensures forall j :: 0 <= j < |changes| && changes[j].0 in before ==> after[changes[j].0].1 == changes[j].1
    ensures forall x :: x in before && (forall j :: 0 <= j < |changes| ==> changes[j].0 != x) ==> after[x] == before[x]
  {
    var n := |changes| - 1;
    var init := changes[..n];
    forall j | 0 <= j < |changes| && changes[j].0 in before ensures after[changes[j].0].1 == changes[j].1 {
      if j < n {
        assert changes[j] == init[j];
      }
    }
    forall x | x in before && (forall j :: 0 <= j < |changes| ==> changes[j].0 != x) ensures after[x] == before[x] {
      assert forall j :: 0 <= j < n ==> changes[j] == init[j];
      assert changes[n].0 != x;
    }
  }

  /** After the updates of the detected changes, every bed on both sides
      agrees with AGHU. */
  lemma AgreeAfterUpdates(epimed: Dict<string, (string, string)>, after: map<string, (string, string)>,
                          aghu: Dict<string, AghuBed>)
    requires Valid(epimed)
    requires after.Keys == epimed.values.Keys
    requires forall j :: 0 <= j < |StatusChanges(epimed, aghu)| && StatusChanges(epimed, aghu)[j].0 in epimed.values ==>
               after[StatusChanges(epimed, aghu)[j].0].1 == StatusChanges(epimed, aghu)[j].1
    requires forall x :: x in epimed.values && (forall j :: 0 <= j < |StatusChanges(epimed, aghu)| ==> StatusChanges(epimed, aghu)[j].0 != x)
               ==> after[x] == epimed.values[x]
    ensures forall k :: k in after && k in aghu.values ==> after[k].1 == aghu.values[k].situation
  {
    var changes := StatusChanges(epimed, aghu);
    forall k | k in after && k in aghu.values ensures after[k].1 == aghu.values[k].situation {
      var s := aghu.values[k].situation;
      if exists j :: 0 <= j < |changes| && changes[j].0 == k {
        var j :| 0 <= j < |changes| && changes[j].0 == k;
        assert changes[j].1 == s;
      } else {
        StatusChangesExactly(epimed, aghu, k, s);
        assert (k, s) !in changes;
      }
    }
  }

  /** The status routine settles: when nothing fails, afterwards no bed
      differs from AGHU any more, and the set of Epimed beds is unchanged. */
  lemma StatusSettle(db: Epimed, aghuRows: seq<AghuBed>, activation: map<string, nat>, deactivation: map<string, nat>,
                     ios: seq<BedIo>, now: nat)
    requires forall i :: 0 <= i < |ios| ==> Clean(ios[i])
    ensures var p := StatusRoutine(db, aghuRows, activation, deactivation, ios, now);
            && p.outcome == Completed
            && EpimedBeds(p.db.beds).values.Keys == EpimedBeds(db.beds).values.Keys
            && StatusChanges(EpimedBeds(p.db.beds), AghuBeds(aghuRows)) == []
  {
    var aghu := AghuBeds(aghuRows);
    var epimed := EpimedBeds(db.beds);
    var changes := StatusChanges(epimed, aghu);
    StatusChangesDistinct(epimed, aghu);
    StatusRunClean(db, aghu, changes, activation, deactivation, ios, now);
    var p := StatusRoutine(db, aghuRows, activation, deactivation, ios, now);
    assert p == StatusRun(db, aghu, changes, activation, deactivation, ios, now);
    UpdatedAllStatuses(db.beds, changes, activation, deactivation);
    var after := EpimedBeds(p.db.beds);
    AgreeAfterUpdates(epimed, after.values, aghu);
    StatusChangesUpToNone(after, aghu, |after.keys|);
  }

  /** Both routines together settle: when nothing fails and every active
      bed has a creation date, the run completes, every bed of the first
      AGHU read is known, and no bed differs from the second read. A second
      run of the script over unchanged AGHU data therefore finds neither a
      new bed nor a status change. */
  lemma SynchronizationSettles(db: Epimed, aghuRows: seq<AghuBed>, statusAghuRows: seq<AghuBed>, created: map<string, nat>,
                               activation: map<string, nat>, deactivation: map<string, nat>,
                               newIos: seq<BedIo>, statusIos: seq<BedIo>, newNow: nat, statusNow: nat)
    requires forall i :: 0 <= i < |newIos| ==> Clean(newIos[i])
    requires forall i :: 0 <= i < |statusIos| ==> Clean(statusIos[i])
    requires forall i :: 0 <= i < |aghuRows| && aghuRows[i].situation == "A" ==> aghuRows[i].bedCode in created
    ensures var p := Synchronization(db, aghuRows, statusAghuRows, created, activation, deactivation, newIos, statusIos, newNow, statusNow);
            && p.outcome == Completed
            && NewBeds(AghuBeds(aghuRows), EpimedBeds(p.db.beds)) == []
            && StatusChanges(EpimedBeds(p.db.beds), AghuBeds(statusAghuRows)) == []
  {
    NewBedsSettle(db, aghuRows, created, newIos, newNow);
    var first := NewBedsRoutine(db, aghuRows, created, newIos, newNow);
    StatusSettle(first.db, statusAghuRows, activation, deactivation, statusIos, statusNow);
    var p := Synchronization(db, aghuRows, statusAghuRows, created, activation, deactivation, newIos, statusIos, newNow, statusNow);
    NoNewBedsWhenKnown(AghuBeds(aghuRows), EpimedBeds(p.db.beds));
  }

  // ---------------------------------------------------------------------
  // The dates of a status change
  // ---------------------------------------------------------------------

  /** As written, the situations the status map knows (`A`, `I`) never match
      the codes the date lookup compares with (`S`, `N`): no date is ever
      looked up for a status change. */
  lemma AsWrittenDatesNeverFound(epimed: Dict<string, (string, string)>, aghu: Dict<string, AghuBed>,
                                 activation: map<string, nat>, deactivation: map<string, nat>, i: nat)
    requires Valid(epimed) && i < |StatusChanges(epimed, aghu)|
    requires StatusCode(aghu.values[StatusChanges(epimed, aghu)[i].0].situation).Some?
    ensures var c := StatusChanges(epimed, aghu)[i];
            StatusDatesAsWritten(c.1, c.0, activation, deactivation) == (None, None)
  {
    var c := StatusChanges(epimed, aghu)[i];
    CodesDistinguish(c.1, c.1);
  }

  /** A bed inserted inactive and then reactivated in AGHU with a known
      activation instant: as written, its Epimed row keeps no activation
      date; with the situation codes, it records the date. */
  lemma ReactivationDateLost(t: nat)
    ensures var row := BedRow("7", "7", "I", None, None);
            var asWritten := StatusDatesAsWritten("A", "7", map["7" := t], map[]);
            var corrected := StatusDates("A", "7", map["7" := t], map[]);
            && UpdatedRow(row, "A", asWritten.0, asWritten.1).activeDate == None
            && UpdatedRow(row, "A", corrected.0, corrected.1).activeDate == Some(DateTimeText(t))
  {
    assert Lookup(map["7" := t], "7") == Some(t);
  }

  /** With the situation codes, a clean status change records the date that
      belongs to the new situation on every row of the bed, and only that
      one: activation for `A`, deactivation for `I`. */
  lemma CorrectedDatesRecorded(db: Epimed, k: string, status: string, b: AghuBed,
                               activation: map<string, nat>, deactivation: map<string, nat>,
                               dates: (Option<string>, Option<string>), io: BedIo, now: nat)
    requires dates == StatusDates(status, k, activation, deactivation)
    requires Clean(io)
    ensures var p := StatusStep(db, k, status, b, dates, io, now);
            && |p.db.beds| == |db.beds|
            && forall i :: 0 <= i < |db.beds| && db.beds[i].clientId == k ==>
                 && p.db.beds[i].bedStatus == status
                 && p.db.beds[i].activeDate
                    == (if status == "A" && k in activation then Some(DateTimeText(activation[k])) else db.beds[i].activeDate)
                 && p.db.beds[i].disableDate
                    == (if status == "I" && k in deactivation then Some(DateTimeText(deactivation[k])) else db.beds[i].disableDate)
  {
    CleanStatusStep(db, k, status, b, dates, io, now);
    CorrectedRows(db.beds, UpdatedRows(db.beds, k, status, dates.0, dates.1), k, status, activation, deactivation);
  }

  /** The rows of bed `k` after an update with the corrected dates. */
  lemma CorrectedRows(rows: seq<BedRow>, updated: seq<BedRow>, k: string, status: string,
                      activation: map<string, nat>, deactivation: map<string, nat>)
    requires var dates := StatusDates(status, k, activation, deactivation);
             updated == UpdatedRows(rows, k, status, dates.0, dates.1)
    ensures |updated| == |rows|
    ensures forall i :: 0 <= i < |rows| && rows[i].clientId == k ==>
              && updated[i].bedStatus == status
              && updated[i].activeDate
                 == (if status == "A" && k in activation then Some(DateTimeText(activation[k])) else rows[i].activeDate)
              && updated[i].disableDate
                 == (if status == "I" && k in deactivation then Some(DateTimeText(deactivation[k])) else rows[i].disableDate)
  {
    var dates := StatusDates(status, k, activation, deactivation);
    assert dates.0 == (if status == "A" && k in activation then Some(DateTimeText(activation[k])) else None);
    assert dates.1 == (if status == "I" && k in deactivation then Some(DateTimeText(deactivation[k])) else None);
  }
}
