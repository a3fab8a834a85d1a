/** `scripts/verificar_leitos.py`: the beds of AGHU are reconciled into the
    `leitos` table of Epimed. The first routine inserts the beds Epimed does
    not know yet, announcing each active one with an HL7 message logged in
    `log_envio_hl7`; the second finds the beds whose situation differs and
    updates them, announcing each change the same way. */
module BedSync {
  import opened Wrappers
  import opened Text
  import opened Clock
  import opened Reconcile
  import opened OrderedDict
  import opened BedMessage

  // ---------------------------------------------------------------------
  // The two sides
  // ---------------------------------------------------------------------

  /** A row of `obter_leitos_aghu`: the unit (`seq`, `descricao`), the bed id
      `lto_id` selected as bed code and as bed name, `ind_leito_extra` and
      `ind_situacao`. */
  datatype AghuBed = AghuBed(
    unitCode: nat,
    unitName: string,
    bedCode: string,
    bedName: string,
    extra: string,
    situation: string)

  function AghuPairs(rows: seq<AghuBed>): (pairs: seq<(string, AghuBed)>)
    ensures |pairs| == |rows|
    ensures forall i :: 0 <= i < |rows| ==> pairs[i] == (rows[i].bedCode, rows[i])
  {
    seq(|rows|, i requires 0 <= i < |rows| => (rows[i].bedCode, rows[i]))
  }

  /** `{row[2]: row[:] for row in cursor.fetchall()}`: the AGHU beds by bed code. */
  function AghuBeds(rows: seq<AghuBed>): Dict<string, AghuBed>
  {
    DictOf(AghuPairs(rows))
  }

  /** A row of the Epimed table `leitos`. */
  datatype BedRow = BedRow(
    clientId: string,
    bedCode: string,
    bedStatus: string,
    activeDate: Option<string>,
    disableDate: Option<string>)

  function EpimedPairs(rows: seq<BedRow>): (pairs: seq<(string, (string, string))>)
    ensures |pairs| == |rows|
    ensures forall i :: 0 <= i < |rows| ==> pairs[i] == (rows[i].clientId, (rows[i].bedCode, rows[i].bedStatus))
  {
    seq(|rows|, i requires 0 <= i < |rows| => (rows[i].clientId, (rows[i].bedCode, rows[i].bedStatus)))
  }

  /** `obter_leitos_epimed`: `{clientid: (bedcode, bedstatus)}`. */
  function EpimedBeds(rows: seq<BedRow>): Dict<string, (string, string)>
  {
    DictOf(EpimedPairs(rows))
  }

  // ---------------------------------------------------------------------
  // Detection
  // ---------------------------------------------------------------------

  /** `novos_leitos`: the AGHU bed ids that are not Epimed client ids, in
      AGHU order. */
  function NewBeds(aghu: Dict<string, AghuBed>, epimed: Dict<string, (string, string)>): (ids: seq<string>)
    requires Valid(aghu)
    ensures forall k :: k in ids <==> k in aghu.values && k !in epimed.values
  {
    NewRecords(aghu.keys, epimed.values.Keys, Itself)
  }

  /** `alteracoes` after the first `n` Epimed beds: the beds also in AGHU
      whose Epimed status differs from the AGHU situation, with that
      situation, in Epimed order. */
  function StatusChangesUpTo(epimed: Dict<string, (string, string)>, aghu: Dict<string, AghuBed>, n: nat)
    : (changes: seq<(string, string)>)
    requires Valid(epimed) && n <= |epimed.keys|
    ensures |changes| <= n
    ensures forall i :: 0 <= i < |changes| ==>
              && changes[i].0 in epimed.values && changes[i].0 in aghu.values
              && epimed.values[changes[i].0].1 != changes[i].1
              && changes[i].1 == aghu.values[changes[i].0].situation
  {
    if n == 0 then []
    else
      var rest := StatusChangesUpTo(epimed, aghu, n - 1);
      var k := epimed.keys[n - 1];
      if k in aghu.values && epimed.values[k].1 != aghu.values[k].situation then rest + [(k, aghu.values[k].situation)]
      else rest
  }

  function StatusChanges(epimed: Dict<string, (string, string)>, aghu: Dict<string, AghuBed>): seq<(string, string)>
    requires Valid(epimed)
  {
    StatusChangesUpTo(epimed, aghu, |epimed.keys|)
  }

  /** The detection loop of `verificar_alteracoes_status`. */
  method DetectStatusChanges(epimed: Dict<string, (string, string)>, aghu: Dict<string, AghuBed>)
    returns (changes: seq<(string, string)>)
    requires Valid(epimed)
    ensures changes == StatusChanges(epimed, aghu)
  {
    changes := [];
    var i := 0;
    while i < |epimed.keys|
      invariant 0 <= i <= |epimed.keys|
      invariant changes == StatusChangesUpTo(epimed, aghu, i)
    {
      var k := epimed.keys[i];
      if k in aghu.values {
        var epimedStatus := epimed.values[k].1;
        var aghuStatus := aghu.values[k].situation;
        if epimedStatus != aghuStatus {
          changes := changes + [(k, aghuStatus)];
        }
      }
      i := i + 1;
    }
  }

  // ---------------------------------------------------------------------
  // The status update statement
  // ---------------------------------------------------------------------

  const StatusColumn: string := "bedstatus = %s"
  const ActiveColumn: string := "activebeddate = %s"
  const DisableColumn: string := "disablebeddate = %s"

  /** The position of a column in the SET list. */
  function Rank(column: string): nat
  {
    if column == StatusColumn then 0 else if column == ActiveColumn then 1 else 2
  }

  /** Column `column` of the SET list is given `value`. */
  predicate Binds(column: string, value: string, status: string, active: Option<string>, disable: Option<string>)
  {
    || (column == StatusColumn && value == status)
    || (column == ActiveColumn && active == Some(value))
    || (column == DisableColumn && disable == Some(value))
  }

  /** The SET list and parameters of `atualizar_status_leito`: the status
      first, then each date that is given, in order, then the bed id for the
      WHERE clause. */
  method BuildStatusUpdate(bedId: string, status: string, active: Option<string>, disable: Option<string>)
    returns (columns: seq<string>, values: seq<string>)
    ensures |columns| >= 1 && columns[0] == StatusColumn
    ensures |values| == |columns| + 1 && values[|columns|] == bedId
    ensures ActiveColumn in columns <==> active.Some?
    ensures DisableColumn in columns <==> disable.Some?
    ensures forall i :: 0 <= i < |columns| ==> Binds(columns[i], values[i], status, active, disable)
    ensures forall i, j :: 0 <= i < j < |columns| ==> Rank(columns[i]) < Rank(columns[j])
  {
    columns := [StatusColumn];
    values := [status];
    if active.Some? {
      columns := columns + [ActiveColumn];
      values := values + [active.value];
    }
    if disable.Some? {
      columns := columns + [DisableColumn];
      values := values + [disable.value];
    }
    values := values + [bedId];
  }

  /** One `column = %s` assignment applied to a row. */
  function Assign(row: BedRow, column: string, value: string): BedRow
  {
    if column == StatusColumn then row.(bedStatus := value)
    else if column == ActiveColumn then row.(activeDate := Some(value))
    else if column == DisableColumn then row.(disableDate := Some(value))
    else row
  }

  /** The SET list applied to a row, left to right. */
  function ApplySets(row: BedRow, columns: seq<string>, values: seq<string>): BedRow
    requires |columns| <= |values|
  {
    if columns == [] then row
    else Assign(ApplySets(row, columns[..|columns| - 1], values), columns[|columns| - 1], values[|columns| - 1])
  }

  /** `UPDATE leitos SET <columns> WHERE clientid = %s` with its parameters. */
  function ExecuteUpdate(rows: seq<BedRow>, columns: seq<string>, values: seq<string>): (r: seq<BedRow>)
    requires |values| == |columns| + 1
    ensures |r| == |rows|
    ensures forall i :: 0 <= i < |rows| ==>
              r[i] == if rows[i].clientId == values[|columns|] then ApplySets(rows[i], columns, values) else rows[i]
  {
    seq(|rows|, i requires 0 <= i < |rows| =>
      if rows[i].clientId == values[|columns|] then ApplySets(rows[i], columns, values) else rows[i])
  }

  /** What the status update means for one row: the new status, and each
      date that is given. */
  function UpdatedRow(row: BedRow, status: string, active: Option<string>, disable: Option<string>): BedRow
  {
    row.(bedStatus := status,
         activeDate := if active.Some? then active else row.activeDate,
         disableDate := if disable.Some? then disable else row.disableDate)
  }

  function UpdatedRows(rows: seq<BedRow>, bedId: string, status: string, active: Option<string>, disable: Option<string>)
    : (r: seq<BedRow>)
    ensures |r| == |rows|
    ensures forall i :: 0 <= i < |rows| ==>
              r[i] == if rows[i].clientId == bedId then UpdatedRow(rows[i], status, active, disable) else rows[i]
  {
    seq(|rows|, i requires 0 <= i < |rows| =>
      if rows[i].clientId == bedId then UpdatedRow(rows[i], status, active, disable) else rows[i])
  }

  /** In a list of strictly increasing ranks, position `i` has rank `i` at least. */
  lemma {:induction false} RankGrows(columns: seq<string>, i: nat)
    requires forall a, b :: 0 <= a < b < |columns| ==> Rank(columns[a]) < Rank(columns[b])
    requires i < |columns|
    ensures Rank(columns[i]) >= i
  {
    if i > 0 {
      RankGrows(columns, i - 1);
    }
  }

  /** A SET list with the shape `BuildStatusUpdate` promises is one of four:
      the status alone, or followed by the activation date, the deactivation
      date, or both. */
  lemma SetListShape(columns: seq<string>, values: seq<string>,
                     status: string, active: Option<string>, disable: Option<string>)
    requires |columns| >= 1 && columns[0] == StatusColumn && |values| >= |columns|
    requires ActiveColumn in columns <==> active.Some?
    requires DisableColumn in columns <==> disable.Some?
    requires forall i :: 0 <= i < |columns| ==> Binds(columns[i], values[i], status, active, disable)
    requires forall i, j :: 0 <= i < j < |columns| ==> Rank(columns[i]) < Rank(columns[j])
    ensures values[0] == status && |columns| <= 3
    ensures |columns| == 1 ==> active.None? && disable.None?
    ensures |columns| == 2 ==>
              || (columns[1] == ActiveColumn && active == Some(values[1]) && disable.None?)
              || (columns[1] == DisableColumn && disable == Some(values[1]) && active.None?)
    ensures |columns| == 3 ==>
              && columns[1] == ActiveColumn && active == Some(values[1])
              && columns[2] == DisableColumn && disable == Some(values[2])
  {
    assert Binds(columns[0], values[0], status, active, disable);
    if |columns| > 1 {
      assert Rank(columns[0]) < Rank(columns[1]);
      assert Binds(columns[1], values[1], status, active, disable);
    }
    if |columns| > 2 {
      assert Rank(columns[1]) < Rank(columns[2]);
      assert Binds(columns[2], values[2], status, active, disable);
    }
    RankGrows(columns, |columns| - 1);
    if |columns| == 1 {
      assert columns == [StatusColumn];
    } else if |columns| == 2 {
      assert columns == [StatusColumn, columns[1]];
    }
  }

  /** Any SET list with the shape `BuildStatusUpdate` promises has exactly
      the effect `UpdatedRow` describes. */
  lemma SetListEffect(row: BedRow, columns: seq<string>, values: seq<string>,
                      status: string, active: Option<string>, disable: Option<string>)
    requires |columns| >= 1 && columns[0] == StatusColumn && |values| >= |columns|
    requires ActiveColumn in columns <==> active.Some?
    requires DisableColumn in columns <==> disable.Some?
    requires forall i :: 0 <= i < |columns| ==> Binds(columns[i], values[i], status, active, disable)
    requires forall i, j :: 0 <= i < j < |columns| ==> Rank(columns[i]) < Rank(columns[j])
    ensures ApplySets(row, columns, values) == UpdatedRow(row, status, active, disable)
  {
    SetListShape(columns, values, status, active, disable);
    var first := Assign(row, StatusColumn, values[0]);
    assert columns[..1][..0] == [];
    assert ApplySets(row, columns[..1], values) == first;
    if |columns| == 1 {
      assert columns[..1] == columns;
    } else {
      assert columns[..2][..1] == columns[..1];
      var second := Assign(first, columns[1], values[1]);
      assert ApplySets(row, columns[..2], values) == second;
      if |columns| == 2 {
        assert columns[..2] == columns;
      } else {
        assert columns[..3][..2] == columns[..2];
        assert columns[..3] == columns;
      }
    }
  }

  // ---------------------------------------------------------------------
  // The Epimed database
  // ---------------------------------------------------------------------

  /** A row of `log_envio_hl7`; its `id` is its position plus one. */
  datatype LogRow = LogRow(
    bedId: string,
    sentAt: nat,
    status: string,
    idLog: nat,
    message: Option<string>,
    response: Option<string>)

  const Pending: string := "pendente"
  const Sent: string := "enviado"

  /** The tables `leitos` and `log_envio_hl7`. */
  datatype Epimed = Epimed(beds: seq<BedRow>, log: seq<LogRow>)

  /** `salvar_log_envio`: a pending row with `id_log = 1`. */
  function WithPendingLog(db: Epimed, bedId: string, now: nat): Epimed
  {
    db.(log := db.log + [LogRow(bedId, now, Pending, 1, None, None)])
  }

  /** `salvar_log_resposta`: row `id` becomes sent, with the message, the
      response and its own id in `id_log`; no row has a missing id. */
  function WithResponse(db: Epimed, id: nat, message: string, response: string): Epimed
  {
    if 1 <= id <= |db.log| then
      var row := db.log[id - 1];
      db.(log := db.log[id - 1 := LogRow(row.bedId, row.sentAt, Sent, id, Some(message), Some(response))])
    else db
  }

  /** `inserir_leito_epimed`: the bed id is both client id and bed code. */
  function WithBed(db: Epimed, bedId: string, situation: string, active: Option<string>): Epimed
  {
    db.(beds := db.beds + [BedRow(bedId, bedId, situation, active, None)])
  }

  /** `atualizar_status_leito`. */
  function WithStatus(db: Epimed, bedId: string, status: string, active: Option<string>, disable: Option<string>): Epimed
  {
    db.(beds := UpdatedRows(db.beds, bedId, status, active, disable))
  }

  // ---------------------------------------------------------------------
  // What each bed meets on its way
  // ---------------------------------------------------------------------

  /** What `enviar_mensagem_hl7` gives: a response body, or a
      `requests.RequestException`. */
  datatype Answer = Response(body: string) | RequestError(detail: string)

  /** The reply of the stub transport. */
  const Ack: string := "ACK"

  /** For one bed: whether inserting its log row fails, the transport's
      answer, whether recording the response fails, and whether the bed's
      insert or update fails. */
  datatype BedIo = BedIo(logFails: bool, answer: Answer, responseFails: bool, writeFails: bool)

  /** The default: nothing fails and the stub transport answers "ACK". */
  const Stub: BedIo := BedIo(false, Response(Ack), false, false)

  function IoAt(ios: seq<BedIo>, i: nat): BedIo
  {
    if i < |ios| then ios[i] else Stub
  }

  /** `row[0] if row else None` of a single-value lookup by bed id. */
  function Lookup(m: map<string, nat>, k: string): Option<nat>
  {
    if k in m then Some(m[k]) else None
  }

  /** `dt.strftime("%Y-%m-%d %H:%M:%S") if dt else None`. */
  function Formatted(dt: Option<nat>): (s: Option<string>)
    ensures s.Some? <==> dt.Some?
    ensures s.Some? ==> WellFormedStamp(s.value) && s.value == DateTimeText(dt.value)
  {
    if dt.None? then None
    else
      DateTimeTextWellFormed(dt.value);
      Some(DateTimeText(dt.value))
  }

  /** The arguments the routines pass to `gerar_mensagem_hl7` for a bed. */
  function Notice(b: AghuBed, active: Option<string>, disable: Option<string>, clientId: nat, now: nat): (n: BedNotice)
    requires active.Some? ==> WellFormedStamp(active.value)
    requires disable.Some? ==> WellFormedStamp(disable.value)
    ensures Renderable(n)
    ensures n.clientId == clientId && n.active == active && n.disabled == disable && n.updated == DateTimeText(now)
  {
    DateTimeTextWellFormed(now);
    BedNotice(b.unitCode, b.unitName, b.bedCode, b.bedName, active, disable, DateTimeText(now),
              clientId, TypeCode(b.extra), StatusCode(b.situation), now)
  }

  /** How a routine ended: every bed handled, or an exception other than
      `RequestException` escaped while handling the named bed. */
  datatype Outcome = Completed | Aborted(bedId: string)

  datatype Progress = Progress(db: Epimed, outcome: Outcome)

  // ---------------------------------------------------------------------
  // The first routine: new beds
  // ---------------------------------------------------------------------

  /** One new bed `k` of `verificar_leitos_novos`. An active bed needs its
      creation date (`dt_criacao.strftime` fails on `None`), gets a pending
      log row whose id is the client id of its message, and after the answer
      the row is marked sent and the bed inserted, whatever the response. A
      `RequestException` leaves the row pending and the bed out. An inactive
      bed is inserted directly with no activation date. */
  function NewBedStep(db: Epimed, k: string, b: AghuBed, created: Option<nat>, io: BedIo, now: nat): Progress
  {
    if b.situation == "A" then
      if created.None? then Progress(db, Aborted(k))
      else if io.logFails then Progress(db, Aborted(k))
      else
        var active := Formatted(created);
        var id := |db.log| + 1;
        AnnouncedStep(WithPendingLog(db, k, now), k, active, id, Message(Notice(b, active, None, id, now)), io)
    else if io.writeFails then Progress(db, Aborted(k))
    else Progress(WithBed(db, k, b.situation, None), Completed)
  }

  /** An active bed once its pending log row `id` is written: the notice is
      sent, the answer logged and the bed inserted. */
  function AnnouncedStep(logged: Epimed, k: string, active: Option<string>, id: nat, message: string, io: BedIo): Progress
  {
    match io.answer
    case RequestError(_) => Progress(logged, Completed)
    case Response(body) =>
      if io.responseFails then Progress(logged, Aborted(k))
      else
        var answered := WithResponse(logged, id, message, body);
        if io.writeFails then Progress(answered, Aborted(k))
        else Progress(WithBed(answered, k, "A", active), Completed)
  }

  /** The new-bed loop over `ids`, stopping at the first abort. */
  function NewBedsRun(db: Epimed, aghu: Dict<string, AghuBed>, ids: seq<string>,
                      created: map<string, nat>, ios: seq<BedIo>, now: nat): Progress
    requires forall i :: 0 <= i < |ids| ==> ids[i] in aghu.values
  {
    if ids == [] then Progress(db, Completed)
    else
      var p := NewBedsRun(db, aghu, ids[..|ids| - 1], created, ios, now);
      var k := ids[|ids| - 1];
      if p.outcome.Aborted? then p
      else NewBedStep(p.db, k, aghu.values[k], Lookup(created, k), IoAt(ios, |ids| - 1), now)
  }

  /** `verificar_leitos_novos`: AGHU beds by id, creation dates by bed id
      (`obter_data_criacao`), one `BedIo` per new bed. */
  function NewBedsRoutine(db: Epimed, aghuRows: seq<AghuBed>, created: map<string, nat>, ios: seq<BedIo>, now: nat): Progress
  {
    var aghu := AghuBeds(aghuRows);
    var ids := NewBeds(aghu, EpimedBeds(db.beds));
    assert forall i :: 0 <= i < |ids| ==> ids[i] in aghu.values by {
      forall i | 0 <= i < |ids| ensures ids[i] in aghu.values {
        assert ids[i] in ids;
      }
    }
    NewBedsRun(db, aghu, ids, created, ios, now)
  }

  /** The loop over one more bed is one more step. */
  lemma NewBedsRunNext(db: Epimed, aghu: Dict<string, AghuBed>, ids: seq<string>,
                       created: map<string, nat>, ios: seq<BedIo>, now: nat, i: nat)
    requires forall j :: 0 <= j < |ids| ==> ids[j] in aghu.values
    requires i < |ids|
    ensures var p := NewBedsRun(db, aghu, ids[..i], created, ios, now);
            NewBedsRun(db, aghu, ids[..i + 1], created, ios, now)
            == if p.outcome.Aborted? then p
               else NewBedStep(p.db, ids[i], aghu.values[ids[i]], Lookup(created, ids[i]), IoAt(ios, i), now)
  {
    assert ids[..i + 1][..i] == ids[..i];
  }

  /** Once a bed aborts the loop, the beds after it change nothing. */
  lemma {:induction false} NewBedsAbortFinal(db: Epimed, aghu: Dict<string, AghuBed>, ids: seq<string>,
                                             created: map<string, nat>, ios: seq<BedIo>, now: nat, n: nat)
    requires forall i :: 0 <= i < |ids| ==> ids[i] in aghu.values
    requires n <= |ids| && NewBedsRun(db, aghu, ids[..n], created, ios, now).outcome.Aborted?
    ensures NewBedsRun(db, aghu, ids, created, ios, now) == NewBedsRun(db, aghu, ids[..n], created, ios, now)
  {
    if n == |ids| {
      assert ids[..n] == ids;
    } else {
      var init := ids[..|ids| - 1];
      assert init[..n] == ids[..n];
      NewBedsAbortFinal(db, aghu, init, created, ios, now, n);
    }
  }

  // ---------------------------------------------------------------------
  // The second routine: status changes
  // ---------------------------------------------------------------------

  /** The dates looked up for a bed whose new status is `status`, as the
      script compares it: with `"S"` and `"N"`, which are values of
      `ind_leito_extra`, not of `ind_situacao`. */
  function StatusDatesAsWritten(status: string, k: string, activation: map<string, nat>, deactivation: map<string, nat>)
    : (dates: (Option<string>, Option<string>))
    ensures dates.0.Some? ==> WellFormedStamp(dates.0.value)
    ensures dates.1.Some? ==> WellFormedStamp(dates.1.value)
  {
    if status == "S" then (Formatted(Lookup(activation, k)), None)
    else if status == "N" then (None, Formatted(Lookup(deactivation, k)))
    else (None, None)
  }

  /** The dates compared with the situations they are meant for: an
      activated bed (`"A"`) gets only its activation date, a deactivated bed
      (`"I"`) only its deactivation date. */
  function StatusDates(status: string, k: string, activation: map<string, nat>, deactivation: map<string, nat>)
    : (dates: (Option<string>, Option<string>))
    ensures dates.0.Some? ==> WellFormedStamp(dates.0.value)
    ensures dates.1.Some? ==> WellFormedStamp(dates.1.value)
  {
    if status == "A" then (Formatted(Lookup(activation, k)), None)
    else if status == "I" then (None, Formatted(Lookup(deactivation, k)))
    else (None, None)
  }

  /** One status change of bed `k` to `status`: a pending log row, the
      message, and after the answer the row marked sent and the bed updated.
      A `RequestException` leaves the row pending and the bed as it was. */
  function StatusStep(db: Epimed, k: string, status: string, b: AghuBed, dates: (Option<string>, Option<string>),
                      io: BedIo, now: nat): Progress
    requires dates.0.Some? ==> WellFormedStamp(dates.0.value)
    requires dates.1.Some? ==> WellFormedStamp(dates.1.value)
  {
    if io.logFails then Progress(db, Aborted(k))
    else
      var id := |db.log| + 1;
      var logged := WithPendingLog(db, k, now);
      var message := Message(Notice(b, dates.0, dates.1, id, now));
      match io.answer
      case RequestError(_) => Progress(logged, Completed)
      case Response(body) =>
        if io.responseFails then Progress(logged, Aborted(k))
        else
          var answered := WithResponse(logged, id, message, body);
          if io.writeFails then Progress(answered, Aborted(k))
          else Progress(WithStatus(answered, k, status, dates.0, dates.1), Completed)
  }

  /** The update loop over `changes`, stopping at the first abort. */
  function StatusRun(db: Epimed, aghu: Dict<string, AghuBed>, changes: seq<(string, string)>,
                     activation: map<string, nat>, deactivation: map<string, nat>, ios: seq<BedIo>, now: nat): Progress
    requires forall i :: 0 <= i < |changes| ==> changes[i].0 in aghu.values
  {
    if changes == [] then Progress(db, Completed)
    else
      var p := StatusRun(db, aghu, changes[..|changes| - 1], activation, deactivation, ios, now);
      var c := changes[|changes| - 1];
      if p.outcome.Aborted? then p
      else StatusStep(p.db, c.0, c.1, aghu.values[c.0], StatusDates(c.1, c.0, activation, deactivation),
                      IoAt(ios, |changes| - 1), now)
  }

  /** `verificar_alteracoes_status`: activation and deactivation instants
      by bed id (`obter_data_ativacao`, `obter_data_inativacao`), one `BedIo`
      per change. */
  function StatusRoutine(db: Epimed, aghuRows: seq<AghuBed>, activation: map<string, nat>, deactivation: map<string, nat>,
                         ios: seq<BedIo>, now: nat): Progress
  {
    var changes := StatusChanges(EpimedBeds(db.beds), AghuBeds(aghuRows));
    StatusRun(db, AghuBeds(aghuRows), changes, activation, deactivation, ios, now)
  }

  lemma StatusRunNext(db: Epimed, aghu: Dict<string, AghuBed>, changes: seq<(string, string)>,
                      activation: map<string, nat>, deactivation: map<string, nat>, ios: seq<BedIo>, now: nat, i: nat)
    requires forall j :: 0 <= j < |changes| ==> changes[j].0 in aghu.values
    requires i < |changes|
    ensures var p := StatusRun(db, aghu, changes[..i], activation, deactivation, ios, now);
            StatusRun(db, aghu, changes[..i + 1], activation, deactivation, ios, now)
            == if p.outcome.Aborted? then p
               else StatusStep(p.db, changes[i].0, changes[i].1, aghu.values[changes[i].0],
                               StatusDates(changes[i].1, changes[i].0, activation, deactivation), IoAt(ios, i), now)
  {
    assert changes[..i + 1][..i] == changes[..i];
  }

  lemma {:induction false} StatusAbortFinal(db: Epimed, aghu: Dict<string, AghuBed>, changes: seq<(string, string)>,
                                            activation: map<string, nat>, deactivation: map<string, nat>,
                                            ios: seq<BedIo>, now: nat, n: nat)
    requires forall i :: 0 <= i < |changes| ==> changes[i].0 in aghu.values
    requires n <= |changes| && StatusRun(db, aghu, changes[..n], activation, deactivation, ios, now).outcome.Aborted?
    ensures StatusRun(db, aghu, changes, activation, deactivation, ios, now)
         == StatusRun(db, aghu, changes[..n], activation, deactivation, ios, now)
  {
    if n == |changes| {
      assert changes[..n] == changes;
    } else {
      var init := changes[..|changes| - 1];
      assert init[..n] == changes[..n];
      StatusAbortFinal(db, aghu, init, activation, deactivation, ios, now, n);
    }
  }

  /** The script's main block: the status routine runs only when the first
      routine raised nothing. Each routine reads AGHU on its own connection:
      `aghuRows` is what the first one reads, `statusAghuRows` what the
      status routine reads when it starts. */
  function Synchronization(db: Epimed, aghuRows: seq<AghuBed>, statusAghuRows: seq<AghuBed>, created: map<string, nat>,
                           activation: map<string, nat>, deactivation: map<string, nat>,
                           newIos: seq<BedIo>, statusIos: seq<BedIo>, newNow: nat, statusNow: nat): Progress
  {
    var first := NewBedsRoutine(db, aghuRows, created, newIos, newNow);
    if first.outcome.Aborted? then first
    else StatusRoutine(first.db, statusAghuRows, activation, deactivation, statusIos, statusNow)
  }

  // ---------------------------------------------------------------------
  // The routines on the database
  // ---------------------------------------------------------------------

  class BedDb {
    /** `leitos`. */
    var beds: seq<BedRow>
    /** `log_envio_hl7`. */
    var log: seq<LogRow>

    function State(): Epimed
      reads this
    {
      Epimed(beds, log)
    }

    /** `inserir_leito_epimed`; a failing statement is rolled back. */
    method InsertBed(bedId: string, situation: string, active: Option<string>, fails: bool) returns (ok: bool)
      modifies this
      ensures ok == !fails
      ensures State() == if fails then old(State()) else WithBed(old(State()), bedId, situation, active)
    {
      if fails {
        return false;
      }
      beds := beds + [BedRow(bedId, bedId, situation, active, None)];
      return true;
    }

    /** `salvar_log_envio`: returns the id of the new pending row. */
    method SaveSendLog(bedId: string, now: nat, fails: bool) returns (ok: bool, id: nat)
      modifies this
      ensures ok == !fails
      ensures ok ==> id == |old(log)| + 1
      ensures State() == if fails then old(State()) else WithPendingLog(old(State()), bedId, now)
    {
      if fails {
        return false, 0;
      }
      log := log + [LogRow(bedId, now, Pending, 1, None, None)];
      return true, |log|;
    }

    /** `salvar_log_resposta`. */
    method SaveResponse(id: nat, message: string, response: string, fails: bool) returns (ok: bool)
      modifies this
      ensures ok == !fails
      ensures State() == if fails then old(State()) else WithResponse(old(State()), id, message, response)
    {
      if fails {
        return false;
      }
      if 1 <= id <= |log| {
        var row := log[id - 1];
        log := log[id - 1 := LogRow(row.bedId, row.sentAt, Sent, id, Some(message), Some(response))];
      }
      return true;
    }

    /** `atualizar_status_leito`: the statement is built, then executed. */
    method UpdateStatus(bedId: string, status: string, active: Option<string>, disable: Option<string>, fails: bool)
      returns (ok: bool)
      modifies this
      ensures ok == !fails
      ensures State() == if fails then old(State()) else WithStatus(old(State()), bedId, status, active, disable)
    {
      if fails {
        return false;
      }
      var columns, values := BuildStatusUpdate(bedId, status, active, disable);
      forall i | 0 <= i < |beds|
        ensures ApplySets(beds[i], columns, values) == UpdatedRow(beds[i], status, active, disable)
      {
        SetListEffect(beds[i], columns, values, status, active, disable);
      }
      beds := ExecuteUpdate(beds, columns, values);
      assert beds == UpdatedRows(old(beds), bedId, status, active, disable);
      return true;
    }

    /** The body of the new-bed loop for bed `k`. */
    method NewBed(k: string, b: AghuBed, created: Option<nat>, io: BedIo, now: nat) returns (outcome: Outcome)
      modifies this
      ensures Progress(State(), outcome) == NewBedStep(old(State()), k, b, created, io, now)
    {
      if b.situation == "A" {
        if created.None? {
          return Aborted(k);
        }
        var active := Formatted(created);
        var logged, id := SaveSendLog(k, now, io.logFails);
        if !logged {
          return Aborted(k);
        }
        var message := Message(Notice(b, active, None, id, now));
        match io.answer
        case RequestError(_) =>
          return Completed;
        case Response(body) =>
          var answered := SaveResponse(id, message, body, io.responseFails);
          if !answered {
            return Aborted(k);
          }
          var inserted := InsertBed(k, b.situation, active, io.writeFails);
          if !inserted {
            return Aborted(k);
          }
          return Completed;
      }
      var inserted := InsertBed(k, b.situation, None, io.writeFails);
      if !inserted {
        return Aborted(k);
      }
      return Completed;
    }

    /** `verificar_leitos_novos`. */
    method VerifyNewBeds(aghuRows: seq<AghuBed>, created: map<string, nat>, ios: seq<BedIo>, now: nat)
      returns (outcome: Outcome)
      modifies this
      ensures Progress(State(), outcome) == NewBedsRoutine(old(State()), aghuRows, created, ios, now)
    {
      var epimed := EpimedBeds(beds);
      var aghu := AghuBeds(aghuRows);
      var ids := NewBeds(aghu, epimed);
      assert forall i :: 0 <= i < |ids| ==> ids[i] in aghu.values by {
        forall i | 0 <= i < |ids| ensures ids[i] in aghu.values {
          assert ids[i] in ids;
        }
      }
      if ids == [] {
        return Completed;
      }
      outcome := NewBedsLoop(aghu, ids, created, ios, now);
    }

    /** The loop of `verificar_leitos_novos` over the new beds, in order. */
    method NewBedsLoop(aghu: Dict<string, AghuBed>, ids: seq<string>, created: map<string, nat>, ios: seq<BedIo>, now: nat)
      returns (outcome: Outcome)
      requires forall i :: 0 <= i < |ids| ==> ids[i] in aghu.values
      modifies this
      ensures Progress(State(), outcome) == NewBedsRun(old(State()), aghu, ids, created, ios, now)
    {
      ghost var start := State();
      outcome := Completed;
      var i := 0;
      while i < |ids|
        invariant 0 <= i <= |ids|
        invariant outcome == Completed
        invariant Progress(State(), Completed) == NewBedsRun(start, aghu, ids[..i], created, ios, now)
      {
        var k := ids[i];
        NewBedsRunNext(start, aghu, ids, created, ios, now, i);
        ghost var before := State();
        assert NewBedsRun(start, aghu, ids[..i + 1], created, ios, now)
            == NewBedStep(before, k, aghu.values[k], Lookup(created, k), IoAt(ios, i), now);
        outcome := NewBed(k, aghu.values[k], Lookup(created, k), IoAt(ios, i), now);
        assert Progress(State(), outcome) == NewBedsRun(start, aghu, ids[..i + 1], created, ios, now);
        if outcome.Aborted? {
          NewBedsAbortFinal(start, aghu, ids, created, ios, now, i + 1);
          return;
        }
        i := i + 1;
      }
      assert ids[..i] == ids;
    }

    /** The body of the update loop for bed `k`. */
    method StatusChange(k: string, status: string, b: AghuBed, dates: (Option<string>, Option<string>), io: BedIo, now: nat)
      returns (outcome: Outcome)
      requires dates.0.Some? ==> WellFormedStamp(dates.0.value)
      requires dates.1.Some? ==> WellFormedStamp(dates.1.value)
      modifies this
      ensures Progress(State(), outcome) == StatusStep(old(State()), k, status, b, dates, io, now)
    {
      var logged, id := SaveSendLog(k, now, io.logFails);
      if !logged {
        return Aborted(k);
      }
      var message := Message(Notice(b, dates.0, dates.1, id, now));
      match io.answer
      case RequestError(_) =>
        return Completed;
      case Response(body) =>
        var answered := SaveResponse(id, message, body, io.responseFails);
        if !answered {
          return Aborted(k);
        }
        var updated := UpdateStatus(k, status, dates.0, dates.1, io.writeFails);
        if !updated {
          return Aborted(k);
        }
        return Completed;
    }

    /** `verificar_alteracoes_status`. */
    method VerifyStatusChanges(aghuRows: seq<AghuBed>, activation: map<string, nat>, deactivation: map<string, nat>,
                               ios: seq<BedIo>, now: nat)
      returns (outcome: Outcome)
      modifies this
      ensures Progress(State(), outcome) == StatusRoutine(old(State()), aghuRows, activation, deactivation, ios, now)
    {
      var epimed := EpimedBeds(beds);
      var aghu := AghuBeds(aghuRows);
      var changes := DetectStatusChanges(epimed, aghu);
      if changes == [] {
        return Completed;
      }
      outcome := StatusLoop(aghu, changes, activation, deactivation, ios, now);
    }

    /** The loop of `verificar_alteracoes_status` over the changes, in order. */
    method StatusLoop(aghu: Dict<string, AghuBed>, changes: seq<(string, string)>,
                      activation: map<string, nat>, deactivation: map<string, nat>, ios: seq<BedIo>, now: nat)
      returns (outcome: Outcome)
      requires forall i :: 0 <= i < |changes| ==> changes[i].0 in aghu.values
      modifies this
      ensures Progress(State(), outcome) == StatusRun(old(State()), aghu, changes, activation, deactivation, ios, now)
    {
      ghost var start := State();
      outcome := Completed;
      var i := 0;
      while i < |changes|
        invariant 0 <= i <= |changes|
        invariant outcome == Completed
        invariant Progress(State(), Completed) == StatusRun(start, aghu, changes[..i], activation, deactivation, ios, now)
      {
        outcome := NextChange(start, aghu, changes, activation, deactivation, ios, now, i);
        if outcome.Aborted? {
          StatusAbortFinal(start, aghu, changes, activation, deactivation, ios, now, i + 1);
          return;
        }
        i := i + 1;
      }
      assert changes[..i] == changes;
    }

    /** Change `i` of the update loop, after the changes before it
        completed. */
    method NextChange(ghost start: Epimed, aghu: Dict<string, AghuBed>, changes: seq<(string, string)>,
                      activation: map<string, nat>, deactivation: map<string, nat>, ios: seq<BedIo>, now: nat, i: nat)
      returns (outcome: Outcome)
      requires forall j :: 0 <= j < |changes| ==> changes[j].0 in aghu.values
      requires i < |changes|
      requires Progress(State(), Completed) == StatusRun(start, aghu, changes[..i], activation, deactivation, ios, now)
      modifies this
      ensures Progress(State(), outcome) == StatusRun(start, aghu, changes[..i + 1], activation, deactivation, ios, now)
    {
      var k, status := changes[i].0, changes[i].1;
      StatusRunNext(start, aghu, changes, activation, deactivation, ios, now, i);
      outcome := StatusChange(k, status, aghu.values[k], StatusDates(status, k, activation, deactivation), IoAt(ios, i), now);
    }

    /** The main block: both routines, the second only when the first
        completed, each on the AGHU rows it reads. */
    method Synchronize(aghuRows: seq<AghuBed>, statusAghuRows: seq<AghuBed>, created: map<string, nat>,
                       activation: map<string, nat>, deactivation: map<string, nat>,
                       newIos: seq<BedIo>, statusIos: seq<BedIo>, newNow: nat, statusNow: nat)
      returns (outcome: Outcome)
      modifies this
      ensures Progress(State(), outcome)
           == Synchronization(old(State()), aghuRows, statusAghuRows, created, activation, deactivation, newIos, statusIos, newNow, statusNow)
    {
      outcome := VerifyNewBeds(aghuRows, created, newIos, newNow);
      if outcome.Aborted? {
        return;
      }
      outcome := VerifyStatusChanges(statusAghuRows, activation, deactivation, statusIos, statusNow);
    }
  }
}
