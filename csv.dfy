/**
 * CSV export of the in-memory ledger (app-v2.js, exportCSV): a header row
 * and one seven-column row per entry; every field is wrapped in double
 * quotes with each embedded quote doubled; fields are joined by "," and
 * rows by "\n". A reader for exactly this format is given so that the
 * export can be proved to round-trip.
 */
module Csv {
  import opened Wrappers
  import opened Meta
  import opened Ledger

  // ---------------------------------------------------------------------
  // Writing
  // ---------------------------------------------------------------------

  /** `String(c).replace(/"/g, '""')` */
  function Escape(s: string): string
  {
    if s == [] then [] else (if s[0] == '"' then "\"\"" else [s[0]]) + Escape(s[1..])
  }

  function Quote(s: string): string
  {
    "\"" + Escape(s) + "\""
  }

  function QuoteAll(fields: seq<string>): (r: seq<string>)
    ensures |r| == |fields|
  {
    if fields == [] then [] else [Quote(fields[0])] + QuoteAll(fields[1..])
  }

  /** `Array.prototype.join(sep)` */
  function JoinWith(sep: char, parts: seq<string>): string
  {
    if |parts| == 0 then []
    else if |parts| == 1 then parts[0]
    else parts[0] + [sep] + JoinWith(sep, parts[1..])
  }

  function CsvRow(fields: seq<string>): string
  {
    JoinWith(',', QuoteAll(fields))
  }

  function RowTexts(rows: seq<seq<string>>): (r: seq<string>)
    ensures |r| == |rows|
  {
    if rows == [] then [] else [CsvRow(rows[0])] + RowTexts(rows[1..])
  }

  function CsvText(rows: seq<seq<string>>): string
  {
    JoinWith('\n', RowTexts(rows))
  }

  // ---------------------------------------------------------------------
  // Integers as `String(n)` writes them
  // ---------------------------------------------------------------------

  function DigitChar(d: nat): char
    requires d < 10
  {
    ('0' as int + d) as char
  }

  predicate IsDigit(c: char)
  {
    '0' <= c <= '9'
  }

  function NatToString(n: nat): (r: string)
    ensures |r| >= 1 && IsDigit(r[0])
  {
    if n < 10 then [DigitChar(n)] else NatToString(n / 10) + [DigitChar(n % 10)]
  }

  function IntToString(n: int): string
  {
    if n < 0 then "-" + NatToString(-n) else NatToString(n)
  }

  function ParseNat(s: string): Option<nat>
  {
    if s == [] || !IsDigit(s[|s| - 1]) then None
    else
      var d := s[|s| - 1] as int - '0' as int;
      if |s| == 1 then Some(d)
      else
        match ParseNat(s[..|s| - 1])
        case None => None
        case Some(p) => Some(p * 10 + d)
  }

  function ParseInt(s: string): Option<int>
  {
    if s != [] && s[0] == '-' then
      match ParseNat(s[1..])
      case None => None
      case Some(n) => Some(0 - n as int)
    else
      match ParseNat(s)
      case None => None
      case Some(n) => Some(n)
  }

  lemma {:induction false} NatRoundTrip(n: nat)
    ensures ParseNat(NatToString(n)) == Some(n)
  {
    if n >= 10 {
      NatRoundTrip(n / 10);
      var s := NatToString(n);
      assert s[..|s| - 1] == NatToString(n / 10);
    }
  }

  /** The decimal text of an amount reads back as the same amount. */
  lemma IntRoundTrip(n: int)
    ensures ParseInt(IntToString(n)) == Some(n)
  {
    var s := IntToString(n);
    if n < 0 {
      NatRoundTrip(-n);
      assert s[0] == '-' && s[1..] == NatToString(-n);
    } else {
      NatRoundTrip(n);
      assert s == NatToString(n) && s[0] != '-';
    }
  }

  // ---------------------------------------------------------------------
  // The export
  // ---------------------------------------------------------------------

  const HeaderRow: seq<string> :=
    ["id", "transaction_id", "amount_cents", "balance_after_cents", "type", "counterparty", "created_at"]

  /** `m.<name> || ""`, reading nothing from a `null` metadata value. */
  function MetaField(meta: Parsed, name: string): (r: string)
    ensures r != "" <==> Truthy(meta, name).Some?
    ensures r != "" ==> r == meta.fields[name]
  {
    match Truthy(meta, name)
    case Some(v) => v
    case None => ""
  }

  function EntryRow(e: Entry, parse: string -> Option<Parsed>): (r: seq<string>)
    ensures |r| == 7
  {
    var m := SafeParseMeta(e.metadata, parse);
    [e.id, e.transactionId, IntToString(e.amount), IntToString(e.balanceAfter),
     MetaField(m, "type"), MetaField(m, "counterparty"), e.createdAt]
  }

  /** The rows pushed by the `forEach`, one per entry. */
  function Rows(ledger: seq<Entry>, parse: string -> Option<Parsed>): (r: seq<seq<string>>)
    ensures |r| == |ledger|
  {
    if ledger == [] then [] else [EntryRow(ledger[0], parse)] + Rows(ledger[1..], parse)
  }

  lemma {:induction false} RowAt(ledger: seq<Entry>, i: nat, parse: string -> Option<Parsed>)
    requires i < |ledger|
    ensures Rows(ledger, parse)[i] == EntryRow(ledger[i], parse)
  {
    if i > 0 {
      RowAt(ledger[1..], i - 1, parse);
    }
  }

  lemma {:induction false} RowsAppend(a: seq<Entry>, b: seq<Entry>, parse: string -> Option<Parsed>)
    ensures Rows(a + b, parse) == Rows(a, parse) + Rows(b, parse)
  {
    if a == [] {
      assert a + b == b;
    } else {
      assert (a + b)[0] == a[0] && (a + b)[1..] == a[1..] + b;
      RowsAppend(a[1..], b, parse);
    }
  }

  lemma RowsSnoc(ledger: seq<Entry>, i: nat, parse: string -> Option<Parsed>)
    requires i < |ledger|
    ensures Rows(ledger[..i + 1], parse) == Rows(ledger[..i], parse) + [EntryRow(ledger[i], parse)]
  {
    assert ledger[..i + 1] == ledger[..i] + [ledger[i]];
    RowsAppend(ledger[..i], [ledger[i]], parse);
  }

  datatype ExportError =
    | NoTransactions   // "No transactions to export"
    | MetadataIsNull   // `m.type` on `null` throws a TypeError

  /** A row of the file reads back as the entry it was written from. */
  predicate Decodes(row: seq<string>, e: Entry, parse: string -> Option<Parsed>)
  {
    var m := SafeParseMeta(e.metadata, parse);
    && |row| == 7
    && row[0] == e.id
    && row[1] == e.transactionId
    && ParseInt(row[2]) == Some(e.amount)
    && ParseInt(row[3]) == Some(e.balanceAfter)
    && row[4] == MetaField(m, "type")
    && row[5] == MetaField(m, "counterparty")
    && row[6] == e.createdAt
  }

  lemma EntryRowDecodes(e: Entry, parse: string -> Option<Parsed>)
    ensures Decodes(EntryRow(e, parse), e, parse)
  {
    IntRoundTrip(e.amount);
    IntRoundTrip(e.balanceAfter);
  }

  /**
   * exportCSV: refuses an empty ledger; otherwise pushes the header and
   * one row per entry and serialises them. A reader of the format gets back
   * the header and, row by row, every entry's fields.
   */
  method ExportCsv(ledger: seq<Entry>, parse: string -> Option<Parsed>)
    returns (r: Result<string, ExportError>)
    ensures r.Failure? <==> ledger == []
    ensures r.Failure? ==> r.error == NoTransactions
    ensures r.Success? ==> ParseCsv(r.value) == Some([HeaderRow] + Rows(ledger, parse))
    ensures r.Success? ==> forall i :: 0 <= i < |ledger| ==> Decodes(Rows(ledger, parse)[i], ledger[i], parse)
  {
    if |ledger| == 0 {
      return Failure(NoTransactions);
    }
    var rows := BuildRows(ledger, parse);
    ExportReadsBack(ledger, parse);
    ExportRowsDecode(ledger, parse);
    r := Success(CsvText(rows));
  }

  /** The row-building loop of exportCSV: the header row, then one row per entry in ledger order. */
  method BuildRows(ledger: seq<Entry>, parse: string -> Option<Parsed>) returns (rows: seq<seq<string>>)
    ensures rows == [HeaderRow] + Rows(ledger, parse)
  {
    rows := [HeaderRow];
    for i := 0 to |ledger|
      invariant rows == [HeaderRow] + Rows(ledger[..i], parse)
    {
      RowsSnoc(ledger, i, parse);
      rows := rows + [EntryRow(ledger[i], parse)];
    }
    assert ledger[..|ledger|] == ledger;
  }

  /** The text written for a ledger reads back as its rows. */
  lemma ExportReadsBack(ledger: seq<Entry>, parse: string -> Option<Parsed>)
    ensures ParseCsv(CsvText([HeaderRow] + Rows(ledger, parse))) == Some([HeaderRow] + Rows(ledger, parse))
  {
    var rows := [HeaderRow] + Rows(ledger, parse);
    forall i | 0 <= i < |rows| ensures |rows[i]| >= 1 {
      if i > 0 {
        RowAt(ledger, i - 1, parse);
        assert rows[i] == Rows(ledger, parse)[i - 1];
      }
    }
    CsvRoundTrip(rows);
  }

  /** The row written for the `i`-th entry decodes to that entry. */
  lemma RowDecodes(ledger: seq<Entry>, i: nat, parse: string -> Option<Parsed>)
    requires i < |ledger|
    ensures Decodes(Rows(ledger, parse)[i], ledger[i], parse)
  {
    RowAt(ledger, i, parse);
    EntryRowDecodes(ledger[i], parse);
  }

  /** Every row after the header decodes to its entry. */
  lemma ExportRowsDecode(ledger: seq<Entry>, parse: string -> Option<Parsed>)
    ensures forall i :: 0 <= i < |ledger| ==> Decodes(Rows(ledger, parse)[i], ledger[i], parse)
  {
    forall i | 0 <= i < |ledger| ensures Decodes(Rows(ledger, parse)[i], ledger[i], parse) {
      RowDecodes(ledger, i, parse);
    }
  }

  /** Some entry's metadata decodes to `null`. */
  predicate SomeNullMeta(ledger: seq<Entry>, parse: string -> Option<Parsed>)
  {
    exists e :: e in ledger && SafeParseMeta(e.metadata, parse).JsNull?
  }

  /** exportCSV as written: `safeParseMeta` hands on `null` when the
      metadata is the JSON text "null", and reading `m.type` from it throws. */
  function ExportCsvAsWritten(ledger: seq<Entry>, parse: string -> Option<Parsed>): (r: Result<string, ExportError>)
    ensures r.Failure? && r.error == MetadataIsNull <==> ledger != [] && SomeNullMeta(ledger, parse)
  {
    if ledger == [] then Failure(NoTransactions)
    else if SomeNullMeta(ledger, parse) then Failure(MetadataIsNull)
    else Success(CsvText([HeaderRow] + Rows(ledger, parse)))
  }

  /** One entry whose metadata is the text "null" makes the export as
      written fail, although the ledger is not empty. */
  lemma NullMetadataAbortsExport(ledger: seq<Entry>, i: nat, parse: string -> Option<Parsed>)
    requires parse("null") == Some(JsNull)
    requires i < |ledger| && ledger[i].metadata == Text("null")
    ensures ExportCsvAsWritten(ledger, parse) == Failure(MetadataIsNull)
  {
    var e := ledger[i];
    assert SafeParseMeta(e.metadata, parse).JsNull?;
    assert e in ledger;
  }

  /** Where no metadata decodes to `null`, the export as written and the
      corrected one produce the same text. */
  lemma AsWrittenAgreesWithoutNull(ledger: seq<Entry>, parse: string -> Option<Parsed>)
    requires ledger != []
    requires forall e :: e in ledger ==> SafeParseMeta(e.metadata, parse).Obj?
    ensures ExportCsvAsWritten(ledger, parse) == Success(CsvText([HeaderRow] + Rows(ledger, parse)))
  {
  }

  // ---------------------------------------------------------------------
  // Reading the format back
  // ---------------------------------------------------------------------

  /** Reads a quoted field after its opening quote: the field's text and
      what follows the closing quote. */
  function ParseQuoted(s: string): (r: Option<(string, string)>)
    ensures r.Some? ==> |r.value.1| < |s|
  {
    if s == [] then None
    else if s[0] == '"' then
      if |s| > 1 && s[1] == '"' then
        match ParseQuoted(s[2..])
        case None => None
        case Some((f, rest)) => Some(("\"" + f, rest))
      else Some(("", s[1..]))
    else
      match ParseQuoted(s[1..])
      case None => None
      case Some((f, rest)) => Some(([s[0]] + f, rest))
  }

  function ParseField(s: string): (r: Option<(string, string)>)
    ensures r.Some? ==> |r.value.1| < |s|
  {
    if s != [] && s[0] == '"' then ParseQuoted(s[1..]) else None
  }

  /** Reads one row: its fields and what follows it (nothing, or a newline). */
  function ParseRow(s: string): (r: Option<(seq<string>, string)>)
    ensures r.Some? ==> |r.value.1| < |s|
    ensures r.Some? ==> r.value.1 == [] || r.value.1[0] == '\n'
    decreases |s|
  {
    match ParseField(s)
    case None => None
    case Some((f, rest)) =>
      if rest != [] && rest[0] == ',' then
        match ParseRow(rest[1..])
        case None => None
        case Some((fs, after)) => Some(([f] + fs, after))
      else if rest == [] || rest[0] == '\n' then Some(([f], rest))
      else None
  }

  function ParseCsv(s: string): Option<seq<seq<string>>>
    decreases |s|
  {
    match ParseRow(s)
    case None => None
    case Some((row, rest)) =>
      if rest == [] then Some([row])
      else
        match ParseCsv(rest[1..])
        case None => None
        case Some(rows) => Some([row] + rows)
  }

  lemma {:induction false} QuotedRoundTrip(f: string, rest: string)
    requires rest == [] || rest[0] != '"'
    ensures ParseQuoted(Escape(f) + "\"" + rest) == Some((f, rest))
  {
    var s := Escape(f) + "\"" + rest;
    if f == [] {
      assert s == "\"" + rest;
    } else {
      QuotedRoundTrip(f[1..], rest);
      var tail := Escape(f[1..]) + "\"" + rest;
      if f[0] == '"' {
        assert s == "\"\"" + tail;
        assert s[2..] == tail;
        assert "\"" + f[1..] == f;
      } else {
        assert s == [f[0]] + tail;
        assert s[1..] == tail;
        assert [f[0]] + f[1..] == f;
      }
    }
  }

  lemma FieldRoundTrip(f: string, more: string)
    requires more == [] || more[0] != '"'
    ensures ParseField(Quote(f) + more) == Some((f, more))
  {
    var s := Quote(f) + more;
    assert s == "\"" + (Escape(f) + "\"" + more);
    assert s[1..] == Escape(f) + "\"" + more;
    QuotedRoundTrip(f, more);
  }

  lemma CsvRowCons(fields: seq<string>)
    requires |fields| >= 1
    ensures |fields| == 1 ==> CsvRow(fields) == Quote(fields[0])
    ensures |fields| > 1 ==> CsvRow(fields) == Quote(fields[0]) + [','] + CsvRow(fields[1..])
  {
    var q := QuoteAll(fields);
    assert q[0] == Quote(fields[0]) && q[1..] == QuoteAll(fields[1..]);
  }

  lemma {:induction false} RowRoundTrip(fields: seq<string>, rest: string)
    requires |fields| >= 1
    requires rest == [] || rest[0] == '\n'
    ensures ParseRow(CsvRow(fields) + rest) == Some((fields, rest))
  {
    var f := fields[0];
    CsvRowCons(fields);
    if |fields| == 1 {
      FieldRoundTrip(f, rest);
      assert fields == [f];
    } else {
      var more := [','] + (CsvRow(fields[1..]) + rest);
      assert CsvRow(fields) + rest == Quote(f) + more;
      FieldRoundTrip(f, more);
      assert more[1..] == CsvRow(fields[1..]) + rest;
      RowRoundTrip(fields[1..], rest);
      assert [f] + fields[1..] == fields;
    }
  }

  /** Every file the export writes reads back as the rows it was written from. */
  lemma {:induction false} CsvRoundTrip(rows: seq<seq<string>>)
    requires |rows| >= 1
    requires forall i :: 0 <= i < |rows| ==> |rows[i]| >= 1
    ensures ParseCsv(CsvText(rows)) == Some(rows)
  {
    var t := RowTexts(rows);
    assert t[0] == CsvRow(rows[0]) && t[1..] == RowTexts(rows[1..]);
    if |rows| == 1 {
      RowRoundTrip(rows[0], []);
      assert CsvText(rows) == CsvRow(rows[0]) + [];
      assert rows == [rows[0]];
    } else {
      var rest := ['\n'] + CsvText(rows[1..]);
      assert CsvText(rows) == CsvRow(rows[0]) + rest;
      RowRoundTrip(rows[0], rest);
      assert rest[1..] == CsvText(rows[1..]);
      CsvRoundTrip(rows[1..]);
      assert [rows[0]] + rows[1..] == rows;
    }
  }
}
