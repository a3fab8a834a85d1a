/** The HL7 v2.5 ORU^R01 message `scripts/verificar_leitos.py` sends for a
    bed: five segments (MSH, PV1, PID, OBR, OBX) separated by `"\n"`, each a
    list of fields separated by `'|'` (HL7 v2.5 chapters 2 and 7). */
module BedMessage {
  import opened Wrappers
  import opened Text
  import opened Clock

  /** `status_map.get`: AGHU situation `A` (active) is observation code `1`,
      `I` (inactive) is `0`, anything else has no code. */
  function StatusCode(situation: string): Option<string>
  {
    if situation == "A" then Some("1") else if situation == "I" then Some("0") else None
  }

  /** `type_map.get`: a regular bed (`ind_leito_extra = 'N'`) is type `1`, an
      extra bed (`'S'`) is type `2`, anything else has no type. */
  function TypeCode(extra: string): Option<string>
  {
    if extra == "N" then Some("1") else if extra == "S" then Some("2") else None
  }

  /** How an f-string prints an optional text: `None` prints as "None". */
  function Printed(o: Option<string>): string
  {
    if o.None? then "None" else o.value
  }

  /** The two lookup maps tell their keys apart, and only their keys have a
      code; a missing code is printed as "None". */
  lemma {:induction false} CodesDistinguish(s: string, t: string)
    ensures StatusCode(s).Some? <==> s == "A" || s == "I"
    ensures TypeCode(s).Some? <==> s == "N" || s == "S"
    ensures StatusCode(s).Some? && StatusCode(s) == StatusCode(t) ==> s == t
    ensures TypeCode(s).Some? && TypeCode(s) == TypeCode(t) ==> s == t
    ensures StatusCode(s).None? ==> Printed(StatusCode(s)) == "None"
  {
  }

  /** A date argument of `gerar_mensagem_hl7` rendered as an HL7 TS: a date
      given as `"%Y-%m-%d %H:%M:%S"` becomes its 14 digits, an absent or
      empty one becomes the empty field. */
  function Hl7Date(d: Option<string>): (r: string)
    requires d.Some? && d.value != "" ==> WellFormedStamp(d.value)
    ensures d.None? || d.value == "" ==> r == ""
    ensures d.Some? && d.value != "" ==> |r| == 14 && AllDigits(r) && StampText(r) == d.value
  {
    if d.None? || d.value == "" then ""
    else
      StampRoundTrip(d.value);
      Hl7Stamp(d.value)
  }

  /** A run of empty fields. */
  function Empties(n: nat): (e: seq<string>)
    ensures |e| == n && forall i :: 0 <= i < n ==> e[i] == ""
  {
    seq(n, _ => "")
  }

  /** A segment: its fields joined with `'|'`. */
  function Segment(fields: seq<string>): string
  {
    Join(fields, "|")
  }

  /** The message control id the script sends in every message. */
  const ControlId: string := "20190409220503_ORU_65870_95936689"

  /** The MSH fields as the script writes them: three bars between the
      timestamp and `ORU^R01` put the message type in MSH-10. */
  function MshFieldsAsWritten(timestamp: string): seq<string>
  {
    ["MSH", "^~\\&", "HUAP", "", "EPIMED", "", timestamp, "", ""]
    + ["ORU^R01", ControlId, "P", "2.5"] + Empties(5) + ["ASCII"]
  }

  /** The MSH fields with two bars there: the message type in MSH-9, the
      control id in MSH-10, the processing id in MSH-11, the version in
      MSH-12 and the character set in MSH-18. */
  function MshFields(timestamp: string): seq<string>
  {
    ["MSH", "^~\\&", "HUAP", "", "EPIMED", "", timestamp, ""]
    + ["ORU^R01", ControlId, "P", "2.5"] + Empties(5) + ["ASCII"]
  }

  function Pv1Fields(unitCode: nat, unitName: string): seq<string>
  {
    ["PV1", "1", "", Decimal(unitCode) + "^^" + unitName] + Empties(30)
  }

  function PidFields(): seq<string>
  {
    ["PID", "1"] + Empties(22)
  }

  function ObrFields(clientId: nat, updated: string): seq<string>
  {
    ["OBR", "1", Decimal(clientId), "", "", "", "", updated] + Empties(28)
  }

  function ObxFields(bedCode: string, bedName: string, typeCode: Option<string>, statusCode: Option<string>,
                     active: string, disabled: string): seq<string>
  {
    ["OBX", "1", "ST", bedCode + "^" + bedName, "", Printed(typeCode) + "^" + Printed(statusCode),
     "", "", "", "", "", "", active, "", disabled] + Empties(6)
  }

  /** The arguments of `gerar_mensagem_hl7`, and the instant `now` at which it
      reads the clock for MSH-7. */
  datatype BedNotice = BedNotice(
    unitCode: nat,
    unitName: string,
    bedCode: string,
    bedName: string,
    active: Option<string>,
    disabled: Option<string>,
    updated: string,
    clientId: nat,
    typeCode: Option<string>,
    statusCode: Option<string>,
    now: nat)

  /** The dates of a notice are in the form the renderer parses. */
  predicate Renderable(n: BedNotice)
  {
    && (n.active.Some? && n.active.value != "" ==> WellFormedStamp(n.active.value))
    && (n.disabled.Some? && n.disabled.value != "" ==> WellFormedStamp(n.disabled.value))
    && WellFormedStamp(n.updated)
  }

  /** The five segments, in order. */
  function Segments(n: BedNotice): seq<string>
    requires Renderable(n)
  {
    [Segment(MshFields(CompactText(n.now))),
     Segment(Pv1Fields(n.unitCode, n.unitName)),
     Segment(PidFields()),
     Segment(ObrFields(n.clientId, Hl7Stamp(n.updated))),
     Segment(ObxFields(n.bedCode, n.bedName, n.typeCode, n.statusCode, Hl7Date(n.active), Hl7Date(n.disabled)))]
  }

  /** `gerar_mensagem_hl7`. */
  function Message(n: BedNotice): string
    requires Renderable(n)
  {
    Join(Segments(n), "\n")
  }

  /** Neither separator occurs in a text. */
  predicate Plain(s: string)
  {
    '|' !in s && '\n' !in s
  }

  /** The texts of a notice that the message copies verbatim are plain. */
  predicate PlainNotice(n: BedNotice)
  {
    && Plain(n.unitName) && Plain(n.bedCode) && Plain(n.bedName)
    && (n.typeCode.Some? ==> Plain(n.typeCode.value))
    && (n.statusCode.Some? ==> Plain(n.statusCode.value))
  }

  lemma DigitsPlain(s: string)
    requires AllDigits(s)
    ensures Plain(s)
  {
    DigitsFree(s, '|');
    DigitsFree(s, '\n');
  }

  lemma PlainConcat(a: string, b: string)
    requires Plain(a) && Plain(b)
    ensures Plain(a + b)
  {
    assert forall i :: 0 <= i < |a + b| ==> (a + b)[i] in a || (a + b)[i] in b by {
      forall i | 0 <= i < |a + b| ensures (a + b)[i] in a || (a + b)[i] in b {
        if i < |a| { assert (a + b)[i] == a[i]; } else { assert (a + b)[i] == b[i - |a|]; }
      }
    }
  }

  /** Every field of a list is plain. */
  predicate AllPlain(fields: seq<string>)
  {
    forall i :: 0 <= i < |fields| ==> Plain(fields[i])
  }

  lemma AllPlainConcat(a: seq<string>, b: seq<string>)
    requires AllPlain(a) && AllPlain(b)
    ensures AllPlain(a + b)
  {
    forall i | 0 <= i < |a + b| ensures Plain((a + b)[i]) {
      if i < |a| { assert (a + b)[i] == a[i]; } else { assert (a + b)[i] == b[i - |a|]; }
    }
  }

  lemma PlainLiteralFields()
    ensures AllPlain(["ORU^R01", ControlId, "P", "2.5"]) && AllPlain(["ASCII"])
    ensures forall n: nat :: AllPlain(Empties(n))
  {
  }

  lemma MshPlain(timestamp: string)
    requires Plain(timestamp)
    ensures AllPlain(MshFields(timestamp)) && AllPlain(MshFieldsAsWritten(timestamp))
  {
    PlainLiteralFields();
    var head := ["MSH", "^~\\&", "HUAP", "", "EPIMED", "", timestamp, ""];
    var tail := ["ORU^R01", ControlId, "P", "2.5"] + Empties(5) + ["ASCII"];
    AllPlainConcat(["ORU^R01", ControlId, "P", "2.5"], Empties(5));
    AllPlainConcat(["ORU^R01", ControlId, "P", "2.5"] + Empties(5), ["ASCII"]);
    assert AllPlain(head);
    AllPlainConcat(head, tail);
    assert MshFields(timestamp) == head + tail;
    assert AllPlain(head + [""]);
    AllPlainConcat(head + [""], tail);
    assert MshFieldsAsWritten(timestamp) == head + [""] + tail;
  }

  lemma Pv1Plain(unitCode: nat, unitName: string)
    requires Plain(unitName)
    ensures AllPlain(Pv1Fields(unitCode, unitName))
  {
    DigitsPlain(Decimal(unitCode));
    PlainConcat(Decimal(unitCode), "^^");
    PlainConcat(Decimal(unitCode) + "^^", unitName);
    PlainLiteralFields();
    AllPlainConcat(["PV1", "1", "", Decimal(unitCode) + "^^" + unitName], Empties(30));
  }

  lemma PidPlain()
    ensures AllPlain(PidFields())
  {
    PlainLiteralFields();
    AllPlainConcat(["PID", "1"], Empties(22));
  }

  lemma ObrPlain(clientId: nat, updated: string)
    requires AllDigits(updated)
    ensures AllPlain(ObrFields(clientId, updated))
  {
    DigitsPlain(Decimal(clientId));
    DigitsPlain(updated);
    PlainLiteralFields();
    AllPlainConcat(["OBR", "1", Decimal(clientId), "", "", "", "", updated], Empties(28));
  }

  lemma ObxPlain(bedCode: string, bedName: string, typeCode: Option<string>, statusCode: Option<string>, active: string, disabled: string)
    requires Plain(bedCode) && Plain(bedName) && AllDigits(active) && AllDigits(disabled)
    requires typeCode.Some? ==> Plain(typeCode.value)
    requires statusCode.Some? ==> Plain(statusCode.value)
    ensures AllPlain(ObxFields(bedCode, bedName, typeCode, statusCode, active, disabled))
  {
    DigitsPlain(active);
    DigitsPlain(disabled);
    PlainConcat(bedCode, "^");
    PlainConcat(bedCode + "^", bedName);
    PlainConcat(Printed(typeCode), "^");
    PlainConcat(Printed(typeCode) + "^", Printed(statusCode));
    PlainLiteralFields();
    var head := ["OBX", "1", "ST", bedCode + "^" + bedName, "", Printed(typeCode) + "^" + Printed(statusCode),
                 "", "", "", "", "", "", active, "", disabled];
    AllPlainConcat(head, Empties(6));
  }

  /** Splitting a segment of plain fields on `'|'` gives its fields back. */
  lemma SegmentSplit(fields: seq<string>)
    requires |fields| >= 1
    requires AllPlain(fields)
    ensures Split(Segment(fields), '|') == fields
    ensures '\n' !in Segment(fields)
  {
    assert FreeOf(fields, '|') && FreeOf(fields, '\n');
    SplitJoin(fields, '|');
    JoinFree(fields, "|", '\n');
  }

  /** Five segments of plain fields joined by `"\n"` split back into the
      segments, and each segment back into its fields. */
  lemma FiveSegments(a: seq<string>, b: seq<string>, c: seq<string>, d: seq<string>, e: seq<string>)
    requires |a| >= 1 && |b| >= 1 && |c| >= 1 && |d| >= 1 && |e| >= 1
    requires AllPlain(a) && AllPlain(b) && AllPlain(c) && AllPlain(d) && AllPlain(e)
    ensures var s := [Segment(a), Segment(b), Segment(c), Segment(d), Segment(e)];
            && Split(Join(s, "\n"), '\n') == s
            && Split(s[0], '|') == a && Split(s[1], '|') == b && Split(s[2], '|') == c
            && Split(s[3], '|') == d && Split(s[4], '|') == e
  {
    var s := [Segment(a), Segment(b), Segment(c), Segment(d), Segment(e)];
    SegmentSplit(a);
    SegmentSplit(b);
    SegmentSplit(c);
    SegmentSplit(d);
    SegmentSplit(e);
    assert FreeOf(s, '\n');
    SplitJoin(s, '\n');
  }

  /** The message of a plain notice is exactly its five segments, MSH, PV1,
      PID, OBR and OBX, separated by `"\n"`, and each segment splits on `'|'`
      into its fields. */
  lemma MessageSegments(n: BedNotice)
    requires Renderable(n) && PlainNotice(n)
    ensures Split(Message(n), '\n') == Segments(n)
    ensures Split(Segments(n)[0], '|') == MshFields(CompactText(n.now))
    ensures Split(Segments(n)[1], '|') == Pv1Fields(n.unitCode, n.unitName)
    ensures Split(Segments(n)[2], '|') == PidFields()
    ensures Split(Segments(n)[3], '|') == ObrFields(n.clientId, Hl7Stamp(n.updated))
    ensures Split(Segments(n)[4], '|') == ObxFields(n.bedCode, n.bedName, n.typeCode, n.statusCode, Hl7Date(n.active), Hl7Date(n.disabled))
  {
    var msh := MshFields(CompactText(n.now));
    var pv1 := Pv1Fields(n.unitCode, n.unitName);
    var pid := PidFields();
    var obr := ObrFields(n.clientId, Hl7Stamp(n.updated));
    var obx := ObxFields(n.bedCode, n.bedName, n.typeCode, n.statusCode, Hl7Date(n.active), Hl7Date(n.disabled));
    DigitsPlain(CompactText(n.now));
    MshPlain(CompactText(n.now));
    Pv1Plain(n.unitCode, n.unitName);
    PidPlain();
    ObrPlain(n.clientId, Hl7Stamp(n.updated));
    ObxPlain(n.bedCode, n.bedName, n.typeCode, n.statusCode, Hl7Date(n.active), Hl7Date(n.disabled));
    FiveSegments(msh, pv1, pid, obr, obx);
    assert Segments(n) == [Segment(msh), Segment(pv1), Segment(pid), Segment(obr), Segment(obx)];
  }

  /** Where the fields a reader looks for sit in each segment. */
  lemma FieldPositions(n: BedNotice)
    requires Renderable(n)
    ensures |MshFields(CompactText(n.now))| == 18 && |ObrFields(n.clientId, Hl7Stamp(n.updated))| == 36
    ensures |ObxFields(n.bedCode, n.bedName, n.typeCode, n.statusCode, Hl7Date(n.active), Hl7Date(n.disabled))| == 21
    ensures MshFields(CompactText(n.now))[0] == "MSH" && MshFields(CompactText(n.now))[6] == CompactText(n.now)
    ensures Pv1Fields(n.unitCode, n.unitName)[0] == "PV1" && PidFields()[0] == "PID"
    ensures ObrFields(n.clientId, Hl7Stamp(n.updated))[0] == "OBR"
    ensures ObrFields(n.clientId, Hl7Stamp(n.updated))[2] == Decimal(n.clientId)
    ensures ObrFields(n.clientId, Hl7Stamp(n.updated))[7] == Hl7Stamp(n.updated)
    ensures ObxFields(n.bedCode, n.bedName, n.typeCode, n.statusCode, Hl7Date(n.active), Hl7Date(n.disabled))[0] == "OBX"
    ensures ObxFields(n.bedCode, n.bedName, n.typeCode, n.statusCode, Hl7Date(n.active), Hl7Date(n.disabled))[12] == Hl7Date(n.active)
    ensures ObxFields(n.bedCode, n.bedName, n.typeCode, n.statusCode, Hl7Date(n.active), Hl7Date(n.disabled))[14] == Hl7Date(n.disabled)
  {
  }

  /** The fields a reader of the message looks for: MSH-7 is the send time,
      OBR-2 the client id (the log row id, read back as the same number),
      OBR-7 the update time, OBX-12 and OBX-14 the activation and
      deactivation dates, all in the 14-digit HL7 form. */
  lemma MessageFields(n: BedNotice)
    requires Renderable(n) && PlainNotice(n)
    ensures var segments := Split(Message(n), '\n');
            && |segments| == 5
            && var msh := Split(segments[0], '|');
            && var obr := Split(segments[3], '|');
            && var obx := Split(segments[4], '|');
            && |msh| == 18 && msh[0] == "MSH" && msh[6] == CompactText(n.now)
            && Split(segments[1], '|')[0] == "PV1"
            && Split(segments[2], '|')[0] == "PID"
            && |obr| == 36 && obr[0] == "OBR" && AllDigits(obr[2]) && DecimalValue(obr[2]) == n.clientId && obr[7] == Hl7Stamp(n.updated)
            && |obx| == 21 && obx[0] == "OBX" && obx[12] == Hl7Date(n.active) && obx[14] == Hl7Date(n.disabled)
  {
    MessageSegments(n);
    FieldPositions(n);
    DecimalRoundTrip(n.clientId);
    var segments := Split(Message(n), '\n');
    assert segments == Segments(n);
    assert Split(segments[0], '|') == MshFields(CompactText(n.now));
    assert Split(segments[1], '|') == Pv1Fields(n.unitCode, n.unitName);
    assert Split(segments[2], '|') == PidFields();
    assert Split(segments[3], '|') == ObrFields(n.clientId, Hl7Stamp(n.updated));
    assert Split(segments[4], '|') == ObxFields(n.bedCode, n.bedName, n.typeCode, n.statusCode, Hl7Date(n.active), Hl7Date(n.disabled));
  }

  /** As written, the MSH segment has one field too many before the message
      type: MSH-9 (split index 8) is empty and `ORU^R01` is in MSH-10, the
      control id in MSH-11 and the version in MSH-13. */
  lemma MshAsWrittenShifted(timestamp: string)
    requires Plain(timestamp)
    ensures var fields := Split(Segment(MshFieldsAsWritten(timestamp)), '|');
            && |fields| == 19
            && fields[6] == timestamp
            && fields[8] == "" && fields[9] == "ORU^R01"
            && fields[10] == ControlId && fields[12] == "2.5" && fields[18] == "ASCII"
  {
    MshPlain(timestamp);
    SegmentSplit(MshFieldsAsWritten(timestamp));
  }

  /** With two bars, MSH-7 is the time, MSH-9 the message type, MSH-10 the
      control id, MSH-11 the processing id, MSH-12 the version and MSH-18 the
      character set. */
  lemma MshFieldsPlaced(timestamp: string)
    requires Plain(timestamp)
    ensures var fields := Split(Segment(MshFields(timestamp)), '|');
            && |fields| == 18
            && fields[6] == timestamp
            && fields[8] == "ORU^R01" && fields[9] == ControlId
            && fields[10] == "P" && fields[11] == "2.5" && fields[17] == "ASCII"
  {
    MshPlain(timestamp);
    SegmentSplit(MshFields(timestamp));
  }
}
