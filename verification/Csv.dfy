/**
 The backfill report: how rows are printed, and the reader of section 2 of RFC 4180 that recovers them.
 The reader ends records at LF; with `crlf` it also takes CR LF as a record end, as that section writes it.
*/
module Csv {
  import opened Decimals
  import opened Wrappers

  // --- Printing ----------------------------------------------------------------------------------

  /** `v.replace(/"/g, '""')`. */
  function DoubleQuotes(v: string): string {
    if v == "" then "" else (if v[0] == '"' then "\"\"" else [v[0]]) + DoubleQuotes(v[1..])
  }

  predicate NeedsQuotes(v: string) {
    ',' in v || '"' in v || '\n' in v
  }

  function CsvEscape(v: string): string {
    if NeedsQuotes(v) then "\"" + DoubleQuotes(v) + "\"" else v
  }

  /** `fields.map(csvEscape).join(",")`. */
  function Line(fields: seq<string>): string {
    if fields == [] then ""
    else if |fields| == 1 then CsvEscape(fields[0])
    else CsvEscape(fields[0]) + "," + Line(fields[1..])
  }

  /** One `console.log` per row. */
  function Print(rows: seq<seq<string>>): string {
    if rows == [] then "" else Line(rows[0]) + "\n" + Print(rows[1..])
  }

  // --- Reading -----------------------------------------------------------------------------------

  predicate EndsInCr(s: string) {
    s != "" && s[|s| - 1] == '\r'
  }

  datatype Mode = FieldStart | Bare | Quoted | Closing

  /** What the reader holds: finished records, finished fields of this record, and the field it is in. */
  datatype Reader = Reader(rows: seq<seq<string>>, fields: seq<string>, field: string, mode: Mode) {
    function EndField(): Reader {
      Reader(rows, fields + [field], "", FieldStart)
    }

    function EndRecord(crlf: bool): Reader {
      var last := if crlf && mode == Bare && EndsInCr(field) then field[..|field| - 1] else field;
      Reader(rows + [fields + [last]], [], "", FieldStart)
    }

    function Take(c: char, m: Mode): Reader {
      Reader(rows, fields, field + [c], m)
    }

    function Step(c: char, crlf: bool): Option<Reader> {
      match mode
      case FieldStart =>
        if c == '"' then Some(this.(mode := Quoted))
        else if c == ',' then Some(EndField())
        else if c == '\n' then Some(EndRecord(crlf))
        else Some(Take(c, Bare))
      case Bare =>
        if c == '"' then None
        else if c == ',' then Some(EndField())
        else if c == '\n' then Some(EndRecord(crlf))
        else Some(Take(c, Bare))
      case Quoted =>
        if c == '"' then Some(this.(mode := Closing)) else Some(Take(c, Quoted))
      case Closing =>
        if c == '"' then Some(Take('"', Quoted))
        else if c == ',' then Some(EndField())
        else if c == '\n' then Some(EndRecord(crlf))
        else None
    }
  }

  function Read(r: Reader, s: string, crlf: bool): Option<Reader>
    decreases |s|
  {
    if s == "" then Some(r)
    else
      var next := r.Step(s[0], crlf);
      if next == None then None else Read(next.value, s[1..], crlf)
  }

  const FRESH := Reader([], [], "", FieldStart)

  /** The records of a text whose every record is ended; None for malformed text. */
  function Parse(s: string, crlf: bool): Option<seq<seq<string>>> {
    var r := Read(FRESH, s, crlf);
    if r.Some? && r.value.fields == [] && r.value.mode == FieldStart then Some(r.value.rows) else None
  }

  // --- Reading undoes printing -----------------------------------------------------------------------

  lemma {:induction false} ReadConcat(r: Reader, crlf: bool, s: string, t: string)
    ensures Read(r, s + t, crlf) == (var m := Read(r, s, crlf); if m == None then None else Read(m.value, t, crlf))
    decreases |s|
  {
    if s == "" {
      assert s + t == t;
    } else {
      assert (s + t)[0] == s[0] && (s + t)[1..] == s[1..] + t;
      if r.Step(s[0], crlf).Some? {
        ReadConcat(r.Step(s[0], crlf).value, crlf, s[1..], t);
      }
    }
  }

  lemma {:induction false} ReadDoubled(r: Reader, crlf: bool, v: string)
    requires r.mode == Quoted
    ensures Read(r, DoubleQuotes(v), crlf) == Some(r.(field := r.field + v))
    decreases |v|
  {
    if v == "" {
      assert r.field + v == r.field;
    } else {
      var head := if v[0] == '"' then "\"\"" else [v[0]];
      var r' := r.(field := r.field + [v[0]]);
      ReadConcat(r, crlf, head, DoubleQuotes(v[1..]));
      assert Read(r, head, crlf) == Some(r') by {
        if v[0] == '"' {
          var c := r.(mode := Closing);
          assert head[1..] == "\"" && head[1..][1..] == "";
          assert Read(c, "\"", crlf) == Read(r', "", crlf);
        } else {
          assert head[1..] == "";
        }
      }
      ReadDoubled(r', crlf, v[1..]);
      assert r.field + [v[0]] + v[1..] == r.field + v;
    }
  }

  lemma {:induction false} ReadBare(r: Reader, crlf: bool, v: string)
    requires !NeedsQuotes(v) && (r.mode == Bare || r.mode == FieldStart)
    ensures Read(r, v, crlf) == Some(r.(field := r.field + v, mode := if v == "" then r.mode else Bare))
    decreases |v|
  {
    if v == "" {
      assert r.field + v == r.field;
    } else {
      assert v[0] in v && forall c :: c in v[1..] ==> c in v;
      ReadBare(r.Take(v[0], Bare), crlf, v[1..]);
      assert r.field + [v[0]] + v[1..] == r.field + v;
    }
  }

  /** After an escaped field the reader holds it, ready for a comma or a line feed. */
  lemma ReadEscaped(r: Reader, crlf: bool, v: string)
    requires r.mode == FieldStart && r.field == ""
    ensures Read(r, CsvEscape(v), crlf).Some?
    ensures var h := Read(r, CsvEscape(v), crlf).value;
            && h.rows == r.rows && h.fields == r.fields && h.field == v && h.mode != Quoted
            && (h.mode == Bare <==> v != "" && !NeedsQuotes(v))
  {
    if NeedsQuotes(v) {
      var q := r.(mode := Quoted);
      assert ("\"" + DoubleQuotes(v) + "\"")[1..] == DoubleQuotes(v) + "\"";
      ReadConcat(q, crlf, DoubleQuotes(v), "\"");
      ReadDoubled(q, crlf, v);
      assert "" + v == v;
      assert "\""[1..] == "";
      assert Read(q.(field := v), "\"", crlf) == Read(q.(field := v, mode := Closing), "", crlf);
    } else {
      ReadBare(r, crlf, v);
      assert "" + v == v;
    }
  }

  lemma ReadOne(r: Reader, crlf: bool, c: char)
    requires r.Step(c, crlf).Some?
    ensures Read(r, [c], crlf) == r.Step(c, crlf)
  {
    assert [c][1..] == "";
  }

  /** A bare field that ends in CR: the CR runs into the line feed after the last field. */
  predicate LosesCr(v: string) {
    EndsInCr(v) && !NeedsQuotes(v)
  }

  /** The record a reader gets from a printed row. */
  function Received(fields: seq<string>, crlf: bool): (r: seq<string>)
    requires fields != []
    ensures |r| == |fields|
    ensures r == fields <==> !(crlf && LosesCr(fields[|fields| - 1]))
  {
    var n := |fields| - 1;
    if crlf && LosesCr(fields[n]) then
      var r := fields[n := fields[n][..|fields[n]| - 1]];
      assert r[n] != fields[n];
      r
    else fields
  }

  function ReceivedAll(rows: seq<seq<string>>, crlf: bool): seq<seq<string>>
    requires forall i :: 0 <= i < |rows| ==> rows[i] != []
  {
    seq(|rows|, i requires 0 <= i < |rows| => Received(rows[i], crlf))
  }

  lemma {:induction false} ReadLine(r: Reader, crlf: bool, fields: seq<string>)
    requires fields != [] && r.mode == FieldStart && r.field == ""
    ensures Read(r, Line(fields) + "\n", crlf)
         == Some(Reader(r.rows + [r.fields + Received(fields, crlf)], [], "", FieldStart))
    decreases |fields|
  {
    hide CsvEscape, Received, Read, NeedsQuotes, Line, Reader.Step, Reader.EndRecord;
    var e := CsvEscape(fields[0]);
    ReadEscaped(r, crlf, fields[0]);
    var h := Read(r, e, crlf).value;
    StepEnds(h, crlf);
    LineIs(fields);
    if |fields| == 1 {
      ReadConcat(r, crlf, e, "\n");
      ReadOne(h, crlf, '\n');
      LastReceived(h, crlf, fields);
    } else {
      var rest := Line(fields[1..]) + "\n";
      ReadLine(h.EndField(), crlf, fields[1..]);
      ReadConcat(r, crlf, e, "," + rest);
      ReadConcat(h, crlf, ",", rest);
      ReadOne(h, crlf, ',');
      HeadReceived(fields, crlf);
      assert r.fields + [fields[0]] + Received(fields[1..], crlf) == r.fields + Received(fields, crlf);
    }
  }

  lemma LineIs(fields: seq<string>)
    requires fields != []
    ensures |fields| == 1 ==> Line(fields) + "\n" == CsvEscape(fields[0]) + "\n"
    ensures |fields| > 1 ==> Line(fields) + "\n" == CsvEscape(fields[0]) + ("," + (Line(fields[1..]) + "\n"))
  {
    hide CsvEscape;
    if |fields| > 1 {
      assert Line(fields) == CsvEscape(fields[0]) + "," + Line(fields[1..]);
      hide Line;
      Regroup(CsvEscape(fields[0]), Line(fields[1..]));
    }
  }

  lemma Regroup(a: string, b: string)
    ensures a + "," + b + "\n" == a + ("," + (b + "\n"))
  {
  }

  lemma StepEnds(h: Reader, crlf: bool)
    requires h.mode != Quoted
    ensures h.Step(',', crlf) == Some(h.EndField()) && h.Step('\n', crlf) == Some(h.EndRecord(crlf))
  {
  }

  lemma LastReceived(h: Reader, crlf: bool, fields: seq<string>)
    requires |fields| == 1 && h.field == fields[0] && (h.mode == Bare <==> fields[0] != "" && !NeedsQuotes(fields[0]))
    ensures h.EndRecord(crlf) == Reader(h.rows + [h.fields + Received(fields, crlf)], [], "", FieldStart)
  {
    assert Received(fields, crlf) == [Received(fields, crlf)[0]];
  }

  lemma HeadReceived(fields: seq<string>, crlf: bool)
    requires |fields| > 1
    ensures Received(fields, crlf) == [fields[0]] + Received(fields[1..], crlf)
  {
  }

  lemma {:induction false} ReadRows(r: Reader, crlf: bool, rows: seq<seq<string>>)
    requires (forall i :: 0 <= i < |rows| ==> rows[i] != []) && r.fields == [] && r.field == "" && r.mode == FieldStart
    ensures Read(r, Print(rows), crlf) == Some(r.(rows := r.rows + ReceivedAll(rows, crlf)))
    decreases |rows|
  {
    var all := ReceivedAll(rows, crlf);
    if rows == [] {
      assert r.rows + all == r.rows;
    } else {
      var line := Line(rows[0]) + "\n";
      ReadConcat(r, crlf, line, Print(rows[1..]));
      ReadLine(r, crlf, rows[0]);
      assert [] + all[0] == all[0];
      ReadRows(r.(rows := r.rows + [all[0]]), crlf, rows[1..]);
      assert all == [all[0]] + ReceivedAll(rows[1..], crlf);
      assert r.rows + [all[0]] + ReceivedAll(rows[1..], crlf) == r.rows + all;
    }
  }

  lemma ParsePrint(rows: seq<seq<string>>, crlf: bool)
    requires forall i :: 0 <= i < |rows| ==> rows[i] != []
    ensures Parse(Print(rows), crlf) == Some(ReceivedAll(rows, crlf))
  {
    ReadRows(FRESH, crlf, rows);
    assert [] + ReceivedAll(rows, crlf) == ReceivedAll(rows, crlf);
  }

  /** A reader of LF-ended records recovers every field of every row, whatever characters they hold. */
  lemma ParseUndoesPrint(rows: seq<seq<string>>)
    requires forall i :: 0 <= i < |rows| ==> rows[i] != []
    ensures Parse(Print(rows), false) == Some(rows)
  {
    ParsePrint(rows, false);
    assert ReceivedAll(rows, false) == rows;
  }

  /** A reader that also takes CR LF recovers them iff no row's last field is bare and ends in CR. */
  lemma CrlfParseUndoesPrintIff(rows: seq<seq<string>>)
    requires forall i :: 0 <= i < |rows| ==> rows[i] != []
    ensures Parse(Print(rows), true) == Some(rows) <==>
              forall i :: 0 <= i < |rows| ==> !LosesCr(rows[i][|rows[i]| - 1])
  {
    ParsePrint(rows, true);
    var all := ReceivedAll(rows, true);
    if forall i :: 0 <= i < |rows| ==> !LosesCr(rows[i][|rows[i]| - 1]) {
      forall i | 0 <= i < |rows| ensures all[i] == rows[i] {
      }
      assert all == rows;
    } else {
      var i :| 0 <= i < |rows| && LosesCr(rows[i][|rows[i]| - 1]);
      assert all[i] != rows[i];
    }
  }

  /** So two reports print alike only if they are equal. */
  lemma PrintIsInjective(a: seq<seq<string>>, b: seq<seq<string>>)
    requires (forall i :: 0 <= i < |a| ==> a[i] != []) && (forall i :: 0 <= i < |b| ==> b[i] != [])
    requires Print(a) == Print(b)
    ensures a == b
  {
    ParseUndoesPrint(a);
    ParseUndoesPrint(b);
  }

  // --- The report's rows --------------------------------------------------------------------------------

  datatype Outcome =
    | Created | LinkedExisting | SkippedNoEmail | SkippedAdminEmail | SkippedLagoCollision
    | SkippedLago404 | SkippedLago5xx | SkippedError
  {
    function Text(): string {
      match this
      case Created => "created"
      case LinkedExisting => "linked_existing"
      case SkippedNoEmail => "skipped_no_email"
      case SkippedAdminEmail => "skipped_admin_email"
      case SkippedLagoCollision => "skipped_lago_collision"
      case SkippedLago404 => "skipped_lago_404"
      case SkippedLago5xx => "skipped_lago_5xx"
      case SkippedError => "skipped_error"
    }
  }

  datatype CsvRow =
    CsvRow(mappingId: nat, lagoCustomerId: string, lagoEmail: string, outcome: Outcome, userId: string, note: string)

  function Fields(r: CsvRow): seq<string> {
    [Decimal(r.mappingId), r.lagoCustomerId, r.lagoEmail, r.outcome.Text(), r.userId, r.note]
  }

  const HEADER := ["mapping_id", "lago_customer_id", "lago_email", "outcome", "user_id", "note"]

  function FieldsOf(rows: seq<CsvRow>): seq<seq<string>> {
    seq(|rows|, i requires 0 <= i < |rows| => Fields(rows[i]))
  }

  /** The whole output of a run. */
  function Report(rows: seq<CsvRow>): string {
    Print([HEADER] + FieldsOf(rows))
  }

  /** What the run printed reads back as its header and, row for row, the fields it emitted. */
  lemma ReportReads(rows: seq<CsvRow>)
    ensures Parse(Report(rows), false) == Some([HEADER] + FieldsOf(rows))
  {
    ParseUndoesPrint([HEADER] + FieldsOf(rows));
  }

  /** What a reader finds: the six column names, and under each a row's own value, the id and the outcome as text. */
  lemma ReportColumns(rows: seq<CsvRow>, i: nat)
    requires i < |rows|
    ensures var read := Parse(Report(rows), false);
            && read.Some? && |read.value| == |rows| + 1
            && read.value[0] == ["mapping_id", "lago_customer_id", "lago_email", "outcome", "user_id", "note"]
            && |read.value[i + 1]| == 6
            && Value(read.value[i + 1][0]) == rows[i].mappingId
            && read.value[i + 1][1] == rows[i].lagoCustomerId
            && read.value[i + 1][2] == rows[i].lagoEmail
            && read.value[i + 1][4] == rows[i].userId
            && read.value[i + 1][5] == rows[i].note
            && Spells(read.value[i + 1][3], rows[i].outcome)
  {
    hide Parse, Report;
    ReportReads(rows);
    DecimalValue(rows[i].mappingId);
    assert ([HEADER] + FieldsOf(rows))[i + 1] == Fields(rows[i]);
  }

  /** The text of an outcome. */
  ghost predicate Spells(text: string, outcome: Outcome) {
    && (text == "created" <==> outcome == Created)
    && (text == "linked_existing" <==> outcome == LinkedExisting)
    && (text == "skipped_no_email" <==> outcome == SkippedNoEmail)
    && (text == "skipped_admin_email" <==> outcome == SkippedAdminEmail)
    && (text == "skipped_lago_collision" <==> outcome == SkippedLagoCollision)
    && (text == "skipped_lago_404" <==> outcome == SkippedLago404)
    && (text == "skipped_lago_5xx" <==> outcome == SkippedLago5xx)
    && (text == "skipped_error" <==> outcome == SkippedError)
  }

  lemma FieldsAreInjective(a: CsvRow, b: CsvRow)
    requires Fields(a) == Fields(b)
    ensures a == b
  {
    var f, g := Fields(a), Fields(b);
    assert f[0] == g[0] && f[1] == g[1] && f[2] == g[2] && f[3] == g[3] && f[4] == g[4] && f[5] == g[5];
    DecimalValue(a.mappingId);
    DecimalValue(b.mappingId);
    OutcomeTextsDiffer(a.outcome, b.outcome);
  }

  lemma OutcomeTextsDiffer(a: Outcome, b: Outcome)
    requires a.Text() == b.Text()
    ensures a == b
  {
    assert |a.Text()| == |b.Text()|;
    assert a.Text()[|a.Text()| - 1] == b.Text()[|b.Text()| - 1];
  }

  /** The printed report determines the rows: ids, outcomes and all. */
  lemma ReportIsInjective(a: seq<CsvRow>, b: seq<CsvRow>)
    requires Report(a) == Report(b)
    ensures a == b
  {
    PrintIsInjective([HEADER] + FieldsOf(a), [HEADER] + FieldsOf(b));
    assert FieldsOf(a) == ([HEADER] + FieldsOf(a))[1..] == ([HEADER] + FieldsOf(b))[1..] == FieldsOf(b);
    assert |a| == |b|;
    forall i | 0 <= i < |a|
      ensures a[i] == b[i]
    {
      assert FieldsOf(a)[i] == FieldsOf(b)[i];
      FieldsAreInjective(a[i], b[i]);
    }
  }
}
