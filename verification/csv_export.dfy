/**
 * The CSV and spreadsheet export of the dashboard: field escaping in the style of section 2
 * of RFC 4180 (rules 6 and 7), records separated by a bare line feed, file-name suffixes and
 * the spreadsheet column widths. A parser for the same format is the partner of the
 * serialiser: parsing what was written gives back the header and the cell texts.
 */
module CsvExport {

  import opened Wrappers
  import opened Strings
  import Lists

  /** A cell value as the exported objects hold it; `Nullish` is `null` or `undefined`. */
  datatype Value = Nullish | Str(s: string) | Num(n: int) | Bool(b: bool)

  /** One exported object: its keys in insertion order with their values. */
  type Row = seq<(string, Value)>

  /** `value ?? ''` followed by `String(...)`. */
  function CellText(v: Value): string {
    match v
    case Nullish => ""
    case Str(s) => s
    case Num(n) => IntToString(n)
    case Bool(b) => if b then "true" else "false"
  }

  /** A field needs quotes when it holds a double quote, a comma or a line feed. */
  predicate NeedsQuotes(s: string) {
    '"' in s || ',' in s || '\n' in s
  }

  /** `s.replace(/"/g, '""')`. */
  function DoubleQuotes(s: string): (r: string)
    ensures |r| >= |s|
    ensures '"' !in s ==> r == s
    decreases |s|
  {
    if s == [] then []
    else (if s[0] == '"' then "\"\"" else [s[0]]) + DoubleQuotes(s[1..])
  }

  /** `escapeCSVValue` on a text. */
  function EscapeText(s: string): (r: string)
    ensures !NeedsQuotes(s) ==> r == s
    ensures NeedsQuotes(s) ==> |r| >= |s| + 2 && r[0] == '"' && r[|r| - 1] == '"'
  {
    if NeedsQuotes(s) then "\"" + DoubleQuotes(s) + "\"" else s
  }

  /** `escapeCSVValue`: nullish values become the empty field. */
  function Escape(v: Value): (r: string)
    ensures v.Nullish? ==> r == ""
    ensures r == "" <==> CellText(v) == ""
  {
    match v
    case Nullish => ""
    case _ => EscapeText(CellText(v))
  }

  /** A carriage return alone does not trigger quoting. */
  lemma LoneCarriageReturnUnquoted()
    ensures Escape(Str("a\rb")) == "a\rb"
  {
    assert !NeedsQuotes("a\rb");
  }

  /** `Object.keys(row)`. */
  function Keys(row: Row): seq<string> {
    Lists.Firsts(row)
  }

  /** `row[key]`: the value stored under `key`, `Nullish` when the row lacks it. */
  function Get(row: Row, key: string): Value
    decreases |row|
  {
    if row == [] then Nullish
    else if row[0].0 == key then row[0].1
    else Get(row[1..], key)
  }

  /** A row without the key reads as nullish. */
  lemma {:induction false} GetMissing(row: Row, key: string)
    requires forall i | 0 <= i < |row| :: row[i].0 != key
    ensures Get(row, key) == Nullish
    decreases |row|
  {
    if row != [] {
      assert forall i | 0 <= i < |row[1..]| :: row[1..][i].0 == row[i + 1].0;
      GetMissing(row[1..], key);
    }
  }

  /** A key is read from its first entry. */
  lemma {:induction false} GetFirst(row: Row, key: string, i: nat)
    requires i < |row| && row[i].0 == key
    requires forall j | 0 <= j < i :: row[j].0 != key
    ensures Get(row, key) == row[i].1
    decreases i
  {
    if i > 0 {
      assert forall j | 0 <= j < i - 1 :: row[1..][j].0 == row[j + 1].0;
      GetFirst(row[1..], key, i - 1);
    }
  }

  /** The texts of one row under `headers`. */
  function Cells(row: Row, headers: seq<string>): (cs: seq<string>)
    ensures |cs| == |headers| && forall j | 0 <= j < |headers| :: cs[j] == CellText(Get(row, headers[j]))
  {
    seq(|headers|, j requires 0 <= j < |headers| => CellText(Get(row, headers[j])))
  }

  /**
   * The cell texts `convertToCSV` writes: the keys of the first row, then every row's values
   * under those keys (a missing key reads as the empty text, keys the first row lacks are
   * dropped).
   */
  function Table(data: seq<Row>): (t: seq<seq<string>>)
    requires data != []
    ensures |t| == |data| + 1 && t[0] == Keys(data[0])
    ensures forall i | 0 <= i < |data| :: t[i + 1] == Cells(data[i], Keys(data[0]))
  {
    var headers := Keys(data[0]);
    [headers] + seq(|data|, i requires 0 <= i < |data| => Cells(data[i], headers))
  }

  function EscapeAll(fields: seq<string>): (r: seq<string>)
    ensures |r| == |fields| && forall j | 0 <= j < |fields| :: r[j] == EscapeText(fields[j])
  {
    seq(|fields|, j requires 0 <= j < |fields| => EscapeText(fields[j]))
  }

  /** One record: its escaped fields joined by commas. */
  function RecordLine(fields: seq<string>): string {
    Join(EscapeAll(fields), ",")
  }

  /** The line of every record. */
  function Lines(records: seq<seq<string>>): (ls: seq<string>)
    ensures |ls| == |records| && forall i | 0 <= i < |records| :: ls[i] == RecordLine(records[i])
  {
    seq(|records|, i requires 0 <= i < |records| => RecordLine(records[i]))
  }

  /** Records joined by a line feed (not the carriage return and line feed of RFC 4180). */
  function Serialize(records: seq<seq<string>>): string {
    Join(Lines(records), "\n")
  }

  /** The escaped keys of the first row, joined by commas. */
  function HeaderLine(data: seq<Row>): string
    requires data != []
  {
    Join(EscapeAll(Keys(data[0])), ",")
  }

  /** The escaped values of one row under `headers`. */
  function EscapedCells(row: Row, headers: seq<string>): (es: seq<string>)
    ensures |es| == |headers| && forall j | 0 <= j < |headers| :: es[j] == Escape(Get(row, headers[j]))
  {
    seq(|headers|, j requires 0 <= j < |headers| => Escape(Get(row, headers[j])))
  }

  /** Row `i` under the first row's keys: escaped values joined by commas. */
  function DataLine(data: seq<Row>, i: nat): string
    requires i < |data|
  {
    Join(EscapedCells(data[i], Keys(data[0])), ",")
  }

  /** The header line, then one line per row. */
  function CsvLines(data: seq<Row>): (ls: seq<string>)
    requires data != []
    ensures |ls| == |data| + 1 && ls[0] == HeaderLine(data)
    ensures forall i | 0 <= i < |data| :: ls[i + 1] == DataLine(data, i)
  {
    [HeaderLine(data)] + seq(|data|, i requires 0 <= i < |data| => DataLine(data, i))
  }

  /** `convertToCSV`; an empty list gives the empty text. */
  function ConvertToCsv(data: seq<Row>): (r: string)
    ensures data == [] ==> r == ""
    ensures data != [] ==> r == Serialize(Table(data))
  {
    if data == [] then ""
    else
      LinesOfTable(data);
      Join(CsvLines(data), "\n")
  }

  /** The lines written are the record lines of the table. */
  lemma LinesOfTable(data: seq<Row>)
    requires data != []
    ensures CsvLines(data) == Lines(Table(data))
  {
    var ls, t := CsvLines(data), Table(data);
    forall k | 0 <= k < |ls| ensures ls[k] == RecordLine(t[k]) {
      if k > 0 {
        DataLineIsRecord(data, k - 1);
      }
    }
  }

  lemma DataLineIsRecord(data: seq<Row>, i: nat)
    requires i < |data|
    ensures DataLine(data, i) == RecordLine(Table(data)[i + 1])
  {
    EscapedCellsAreEscapedTexts(data[i], Keys(data[0]));
  }

  /** Escaping the values of a row is escaping its texts. */
  lemma EscapedCellsAreEscapedTexts(row: Row, headers: seq<string>)
    ensures EscapedCells(row, headers) == EscapeAll(Cells(row, headers))
  {
    forall j | 0 <= j < |headers| ensures EscapedCells(row, headers)[j] == EscapeAll(Cells(row, headers))[j] {
      EscapeCell(Get(row, headers[j]));
    }
  }

  /** Escaping a value is escaping its text. */
  lemma EscapeCell(v: Value)
    ensures Escape(v) == EscapeText(CellText(v))
  {
    if v.Nullish? {
      assert !NeedsQuotes("");
    }
  }

  // ---------------------------------------------------------------- reading the text back

  /** An unquoted field: everything up to the next comma or line feed. */
  function ReadBare(s: string): (r: (string, string))
    ensures r.0 + r.1 == s
    ensures r.1 == [] || r.1[0] == ',' || r.1[0] == '\n'
    decreases |s|
  {
    if s == [] || s[0] == ',' || s[0] == '\n' then ([], s)
    else
      var p := ReadBare(s[1..]);
      ([s[0]] + p.0, p.1)
  }

  /** The rest of a quoted field after its opening quote; `""` stands for one quote. */
  function ReadQuoted(s: string): (r: Option<(string, string)>)
    ensures r.Some? ==> |r.value.1| < |s|
    decreases |s|
  {
    if s == [] then None
    else if s[0] == '"' then
      if |s| >= 2 && s[1] == '"' then
        match ReadQuoted(s[2..])
        case None => None
        case Some(p) => Some(("\"" + p.0, p.1))
      else Some(([], s[1..]))
    else
      match ReadQuoted(s[1..])
      case None => None
      case Some(p) => Some(([s[0]] + p.0, p.1))
  }

  /** One field and what follows it; `None` for an unterminated quoted field. */
  function ReadField(s: string): (r: Option<(string, string)>)
    ensures r.Some? ==> |r.value.1| <= |s|
  {
    if s != [] && s[0] == '"' then ReadQuoted(s[1..]) else Some(ReadBare(s))
  }

  /** What follows a record: the end of the text, or a line feed and the remaining text. */
  datatype After = EndOfInput | NextLine(rest: string)

  function AfterText(a: After): string {
    match a
    case EndOfInput => ""
    case NextLine(rest) => "\n" + rest
  }

  function ReadRecord(s: string): (r: Option<(seq<string>, After)>)
    ensures r.Some? ==> |r.value.0| >= 1
    ensures r.Some? && r.value.1.NextLine? ==> |r.value.1.rest| < |s|
    decreases |s|
  {
    match ReadField(s)
    case None => None
    case Some(p) =>
      var (f, rest) := p;
      if rest == [] then Some(([f], EndOfInput))
      else if rest[0] == '\n' then Some(([f], NextLine(rest[1..])))
      else if rest[0] == ',' then
        match ReadRecord(rest[1..])
        case None => None
        case Some(q) => Some(([f] + q.0, q.1))
      else None
  }

  /** Parses records separated by line feeds; `None` for malformed text. */
  function ParseCsv(s: string): (r: Option<seq<seq<string>>>)
    ensures r.Some? ==> |r.value| >= 1 && forall i | 0 <= i < |r.value| :: |r.value[i]| >= 1
    decreases |s|
  {
    match ReadRecord(s)
    case None => None
    case Some(p) =>
      match p.1
      case EndOfInput => Some([p.0])
      case NextLine(rest) =>
        match ParseCsv(rest)
        case None => None
        case Some(recs) => Some([p.0] + recs)
  }

  lemma {:induction false} ReadBareOf(f: string, rest: string)
    requires ',' !in f && '\n' !in f
    requires rest == [] || rest[0] == ',' || rest[0] == '\n'
    ensures ReadBare(f + rest) == (f, rest)
    decreases |f|
  {
    if f == [] {
      assert f + rest == rest;
    } else {
      assert f[0] in f && (f + rest)[0] == f[0];
      assert forall c | c in f[1..] :: c in f;
      assert (f + rest)[1..] == f[1..] + rest;
      ReadBareOf(f[1..], rest);
      assert [f[0]] + f[1..] == f;
    }
  }

  lemma {:induction false} ReadQuotedDoubled(f: string, rest: string)
    requires rest == [] || rest[0] != '"'
    ensures ReadQuoted(DoubleQuotes(f) + "\"" + rest) == Some((f, rest))
    decreases |f|
  {
    if f == [] {
      ReadQuotedClose(rest);
    } else {
      ReadQuotedDoubled(f[1..], rest);
      var tail := DoubleQuotes(f[1..]) + "\"" + rest;
      var head := if f[0] == '"' then "\"\"" else [f[0]];
      DoubleQuotesCons(f, head, tail, rest);
      if f[0] == '"' {
        ReadQuotedPair(tail);
      } else {
        ReadQuotedChar(f[0], tail);
      }
      assert f == [f[0]] + f[1..];
    }
  }

  /** The doubled text of a non-empty field is its first character's escape before the rest. */
  lemma DoubleQuotesCons(f: string, head: string, tail: string, rest: string)
    requires f != [] && head == (if f[0] == '"' then "\"\"" else [f[0]])
    requires tail == DoubleQuotes(f[1..]) + "\"" + rest
    ensures DoubleQuotes(f) + "\"" + rest == head + tail
  {
    assert DoubleQuotes(f) == head + DoubleQuotes(f[1..]);
  }

  /** A lone quote closes the field. */
  lemma ReadQuotedClose(rest: string)
    requires rest == [] || rest[0] != '"'
    ensures ReadQuoted("\"" + rest) == Some(([], rest))
  {
    assert ("\"" + rest)[1..] == rest;
  }

  /** Two quotes stand for one quote of the field. */
  lemma ReadQuotedPair(tail: string)
    ensures ReadQuoted("\"\"" + tail) ==
      match ReadQuoted(tail)
      case None => None
      case Some(p) => Some(("\"" + p.0, p.1))
  {
    assert ("\"\"" + tail)[2..] == tail;
  }

  /** Any other character belongs to the field. */
  lemma ReadQuotedChar(c: char, tail: string)
    requires c != '"'
    ensures ReadQuoted([c] + tail) ==
      match ReadQuoted(tail)
      case None => None
      case Some(p) => Some(([c] + p.0, p.1))
  {
    assert ([c] + tail)[1..] == tail;
  }

  /** An escaped field is read back as the original text, whatever follows it. */
  lemma ReadFieldEscaped(f: string, rest: string)
    requires rest == [] || rest[0] == ',' || rest[0] == '\n'
    ensures ReadField(EscapeText(f) + rest) == Some((f, rest))
  {
    if NeedsQuotes(f) {
      ReadFieldQuoted(f, rest);
    } else {
      ReadFieldBare(f, rest);
    }
  }

  lemma ReadFieldQuoted(f: string, rest: string)
    requires NeedsQuotes(f)
    requires rest == [] || rest[0] == ',' || rest[0] == '\n'
    ensures ReadField(EscapeText(f) + rest) == Some((f, rest))
  {
    var d := DoubleQuotes(f);
    QuotedThen(EscapeText(f), d, rest);
    ReadQuotedDoubled(f, rest);
    OpenQuote(d + "\"" + rest);
  }

  lemma QuotedThen(e: string, d: string, rest: string)
    requires e == "\"" + d + "\""
    ensures e + rest == "\"" + (d + "\"" + rest)
  {
  }

  /** A field that opens with a quote is read as a quoted field. */
  lemma OpenQuote(body: string)
    ensures ReadField("\"" + body) == ReadQuoted(body)
  {
    assert ("\"" + body)[1..] == body;
  }

  lemma ReadFieldBare(f: string, rest: string)
    requires !NeedsQuotes(f)
    requires rest == [] || rest[0] == ',' || rest[0] == '\n'
    ensures ReadField(EscapeText(f) + rest) == Some((f, rest))
  {
    assert EscapeText(f) == f;
    if f != [] {
      assert f[0] in f && (f + rest)[0] == f[0];
    } else {
      assert f + rest == rest;
    }
    ReadBareOf(f, rest);
  }

  /** A record of two or more fields is its first escaped field, a comma and the rest. */
  lemma RecordLineCons(fields: seq<string>)
    requires |fields| >= 2
    ensures RecordLine(fields) == EscapeText(fields[0]) + "," + RecordLine(fields[1..])
  {
    assert EscapeAll(fields)[1..] == EscapeAll(fields[1..]);
  }

  /** Reading a field followed by a comma goes on with the next field. */
  lemma ReadRecordComma(f: string, tail: string)
    ensures ReadRecord(EscapeText(f) + ("," + tail)) ==
      match ReadRecord(tail)
      case None => None
      case Some(q) => Some(([f] + q.0, q.1))
  {
    ReadFieldEscaped(f, "," + tail);
    assert ("," + tail)[1..] == tail;
  }

  lemma {:induction false} ReadRecordLine(fields: seq<string>, after: After)
    requires |fields| >= 1
    ensures ReadRecord(RecordLine(fields) + AfterText(after)) == Some((fields, after))
    decreases |fields|
  {
    if |fields| == 1 {
      RecordLineSingle(fields);
      ReadRecordSingle(fields[0], after);
    } else {
      var tail := RecordLine(fields[1..]) + AfterText(after);
      RecordLineThen(fields, AfterText(after));
      ReadRecordLine(fields[1..], after);
      ReadRecordStep(fields, after, tail);
    }
  }

  /** A record line of two or more fields, followed by some text, is its first field, a comma and the rest. */
  lemma RecordLineThen(fields: seq<string>, after: string)
    requires |fields| >= 2
    ensures RecordLine(fields) + after == EscapeText(fields[0]) + ("," + (RecordLine(fields[1..]) + after))
  {
    RecordLineCons(fields);
    Regroup(RecordLine(fields), EscapeText(fields[0]), RecordLine(fields[1..]), after);
  }

  lemma Regroup(x: string, e: string, r: string, after: string)
    requires x == e + "," + r
    ensures x + after == e + ("," + (r + after))
  {
  }

  /** A first field put before a record that reads back makes a record that reads back. */
  lemma ReadRecordStep(fields: seq<string>, after: After, tail: string)
    requires |fields| >= 2
    requires ReadRecord(tail) == Some((fields[1..], after))
    ensures ReadRecord(EscapeText(fields[0]) + ("," + tail)) == Some((fields, after))
  {
    ReadRecordComma(fields[0], tail);
    assert fields == [fields[0]] + fields[1..];
  }

  lemma RecordLineSingle(fields: seq<string>)
    requires |fields| == 1
    ensures RecordLine(fields) == EscapeText(fields[0]) && fields == [fields[0]]
  {
  }

  /** The last field of a record ends it. */
  lemma ReadRecordSingle(f: string, after: After)
    ensures ReadRecord(EscapeText(f) + AfterText(after)) == Some(([f], after))
  {
    ReadFieldEscaped(f, AfterText(after));
    if after.NextLine? {
      assert AfterText(after)[1..] == after.rest;
    }
  }

  /** Several records are the first one's line, a line feed and the rest. */
  lemma SerializeCons(records: seq<seq<string>>)
    requires |records| >= 1
    ensures |records| == 1 ==> Serialize(records) == RecordLine(records[0]) + AfterText(EndOfInput)
    ensures |records| >= 2 ==> Serialize(records) == RecordLine(records[0]) + AfterText(NextLine(Serialize(records[1..])))
  {
    assert Lines(records)[1..] == Lines(records[1..]);
    if |records| >= 2 {
      var x := RecordLine(records[0]);
      var rest := Serialize(records[1..]);
      assert Serialize(records) == x + "\n" + rest;
      assert x + "\n" + rest == x + ("\n" + rest);
    }
  }

  /** Parsing the serialised records gives them back, when every record has a field. */
  lemma {:induction false} ParseSerialized(records: seq<seq<string>>)
    requires |records| >= 1 && forall i | 0 <= i < |records| :: |records[i]| >= 1
    ensures ParseCsv(Serialize(records)) == Some(records)
    decreases |records|
  {
    SerializeCons(records);
    if |records| == 1 {
      ReadRecordLine(records[0], EndOfInput);
      assert records == [records[0]];
    } else {
      ReadRecordLine(records[0], NextLine(Serialize(records[1..])));
      ParseSerialized(records[1..]);
      assert records == [records[0]] + records[1..];
    }
  }

  /**
   * Reading an export gives back the header keys and every cell text, provided the first row
   * has a key (with none, every record is the empty line and the shape is lost).
   */
  lemma ConvertToCsvRoundTrip(data: seq<Row>)
    requires data != [] && |data[0]| >= 1
    ensures ParseCsv(ConvertToCsv(data)) == Some(Table(data))
  {
    ParseSerialized(Table(data));
  }

  /** Two record lists with the same serialisation are equal. */
  lemma SerializeInjective(a: seq<seq<string>>, b: seq<seq<string>>)
    requires |a| >= 1 && forall i | 0 <= i < |a| :: |a[i]| >= 1
    requires |b| >= 1 && forall i | 0 <= i < |b| :: |b[i]| >= 1
    requires Serialize(a) == Serialize(b)
    ensures a == b
  {
    ParseSerialized(a);
    ParseSerialized(b);
  }

  // ---------------------------------------------------------------- files and spreadsheets

  /** The download name: the extension is appended unless the name already ends with it. */
  function EnsureExtension(name: string, ext: string): (r: string)
    ensures EndsWith(r, ext)
    ensures EndsWith(name, ext) ==> r == name
    ensures !EndsWith(name, ext) ==> r == name + ext
  {
    if EndsWith(name, ext) then name
    else
      EndsWithAppended(name, ext);
      name + ext
  }

  lemma EnsureExtensionIdempotent(name: string, ext: string)
    ensures EnsureExtension(EnsureExtension(name, ext), ext) == EnsureExtension(name, ext)
  {
  }

  datatype CsvDownload = CsvDownload(fileName: string, content: string)

  /** `exportToCSV`: nothing happens for an empty list. */
  function ExportToCsv(data: seq<Row>, fileName: string): (r: Option<CsvDownload>)
    ensures r.None? <==> data == []
    ensures r.Some? ==> EndsWith(r.value.fileName, ".csv")
    ensures r.Some? && |data[0]| >= 1 ==> ParseCsv(r.value.content) == Some(Table(data))
  {
    if data == [] then None
    else
      assert |data[0]| >= 1 ==> ParseCsv(ConvertToCsv(data)) == Some(Table(data)) by {
        if |data[0]| >= 1 {
          ConvertToCsvRoundTrip(data);
        }
      }
      Some(CsvDownload(EnsureExtension(fileName, ".csv"), ConvertToCsv(data)))
  }

  /** A value that `||` replaces with the empty text. */
  predicate Falsy(v: Value) {
    v == Nullish || v == Str("") || v == Num(0) || v == Bool(false)
  }

  /** `String(row[key] || '').length`. */
  function CellLength(v: Value): nat {
    if Falsy(v) then 0 else |CellText(v)|
  }

  function LongestCell(data: seq<Row>, key: string): (m: nat)
    requires data != []
    ensures forall i | 0 <= i < |data| :: CellLength(Get(data[i], key)) <= m
    ensures exists i | 0 <= i < |data| :: CellLength(Get(data[i], key)) == m
    decreases |data|
  {
    var here := CellLength(Get(data[0], key));
    if |data| == 1 then here
    else
      var m := LongestCell(data[1..], key);
      assert forall i | 1 <= i < |data| :: data[i] == data[1..][i - 1];
      if here >= m then here else m
  }

  const MaxColumnWidth := 50

  /**
   * The width of one spreadsheet column: two more than the longest of the key and its cells,
   * capped at 50.
   */
  function ColumnWidth(data: seq<Row>, key: string): (w: nat)
    requires data != []
    ensures 2 <= w <= MaxColumnWidth
    ensures w < MaxColumnWidth ==> |key| + 2 <= w && forall i | 0 <= i < |data| :: CellLength(Get(data[i], key)) + 2 <= w
    ensures w < MaxColumnWidth ==> w == |key| + 2 || exists i | 0 <= i < |data| :: CellLength(Get(data[i], key)) + 2 == w
    ensures w == MaxColumnWidth ==> |key| + 2 >= MaxColumnWidth || exists i | 0 <= i < |data| :: CellLength(Get(data[i], key)) + 2 >= MaxColumnWidth
  {
    var m := LongestCell(data, key);
    var longest := if |key| >= m then |key| else m;
    if longest + 2 < MaxColumnWidth then longest + 2 else MaxColumnWidth
  }

  datatype SheetDownload = SheetDownload(fileName: string, widths: seq<nat>)

  /** `exportToExcel`, without the workbook itself: one width per key of the first row. */
  function ExportToExcel(data: seq<Row>, fileName: string): (r: Option<SheetDownload>)
    ensures r.None? <==> data == []
    ensures r.Some? ==> EndsWith(r.value.fileName, ".xlsx")
    ensures r.Some? ==> |r.value.widths| == |data[0]|
    ensures r.Some? ==> forall j | 0 <= j < |data[0]| :: r.value.widths[j] == ColumnWidth(data, data[0][j].0)
  {
    if data == [] then None
    else
      var keys := Keys(data[0]);
      Some(SheetDownload(EnsureExtension(fileName, ".xlsx"),
        seq(|keys|, j requires 0 <= j < |keys| => ColumnWidth(data, keys[j]))))
  }
}
