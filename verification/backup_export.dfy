/**
  The CSV text built by the backup page's `downloadCSV` (app/backup-export/page.tsx): a header
  line of the first record's keys, then one line per record, with string values that hold a
  comma or a double quote quoted as section 2 of RFC 4180 describes. The download itself (the
  blob, the link and the click) is not part of this model.
*/
module BackupExport {
  import opened Common
  import opened JsString

  /** A value read from a backend row. */
  datatype Value = Str(s: string) | Num(n: int) | Bool(b: bool) | Null | Missing

  /** A backend row: its keys in `Object.keys` order, each with its value. */
  type Record = seq<(string, Value)>

  function Keys(r: Record): (keys: seq<string>)
    ensures |keys| == |r| && forall k :: 0 <= k < |r| ==> keys[k] == r[k].0
  {
    Map(r, (e: (string, Value)) => e.0)
  }

  /** `row[header]`: the value under the key, `undefined` when the row has no such key. */
  function Lookup(r: Record, key: string): (v: Value)
    ensures (forall k :: 0 <= k < |r| ==> r[k].0 != key) ==> v.Missing?
    ensures forall k :: 0 <= k < |r| && r[k].0 == key && (forall j :: 0 <= j < k ==> r[j].0 != key) ==> v == r[k].1
  {
    if r == [] then Missing
    else if r[0].0 == key then r[0].1
    else
      assert forall k :: 1 <= k < |r| ==> r[k] == r[1..][k - 1];
      Lookup(r[1..], key)
  }

  /** How `Array.prototype.join` renders an element: `null` and `undefined` as the empty string. */
  function Render(v: Value): string {
    match v
    case Str(s) => s
    case Num(n) => IntToString(n)
    case Bool(b) => if b then "true" else "false"
    case Null => ""
    case Missing => ""
  }

  predicate NeedsQuotes(t: string) {
    ',' in t || '"' in t
  }

  /** `value.replace(/"/g, '""')`. */
  function Escape(t: string): (e: string)
    ensures |e| >= |t|
  {
    if t == [] then []
    else (if t[0] == '"' then "\"\"" else [t[0]]) + Escape(t[1..])
  }

  /** A quoted field: the escaped text between two double quotes. */
  function Quote(t: string): (q: string)
    ensures |q| >= 2 && q[0] == '"' && q[|q| - 1] == '"'
  {
    "\"" + Escape(t) + "\""
  }

  /** What one cell becomes: a string that needs it is quoted, any other value is rendered as is. */
  function Cell(v: Value): (c: string)
    ensures v.Str? && NeedsQuotes(v.s) ==> c == Quote(v.s)
    ensures !(v.Str? && NeedsQuotes(v.s)) ==> c == Render(v) && !NeedsQuotes(c)
  {
    if v.Str? && NeedsQuotes(v.s) then Quote(v.s)
    else if v.Str? then v.s
    else
      RenderPlain(v);
      Render(v)
  }

  /** Numbers, booleans and missing values render without commas or quotes. */
  lemma RenderPlain(v: Value)
    requires !v.Str?
    ensures !NeedsQuotes(Render(v))
  {
    if v.Num? {
      var s := IntToString(v.n);
      var digits := NatToString(if v.n < 0 then -v.n else v.n);
      assert s == digits || s == "-" + digits;
      assert forall c :: c in digits ==> IsDigit(c);
    }
  }

  /** The record's values in header order; a header the record lacks gives `undefined`. */
  function Row(r: Record, headers: seq<string>): (row: seq<Value>)
    ensures |row| == |headers| && forall k :: 0 <= k < |headers| ==> row[k] == Lookup(r, headers[k])
  {
    Map(headers, (h: string) => Lookup(r, h))
  }

  /** One data line: the record's cells in header order, joined by commas. */
  function Line(r: Record, headers: seq<string>): string {
    Join(Map(Row(r, headers), Cell), ",")
  }

  /** The lines of the file: the header line of the first record's keys, then one line per record, in order. */
  function CsvLines(data: seq<Record>): (lines: seq<string>)
    requires data != []
    ensures |lines| == |data| + 1
    ensures lines[0] == Join(Keys(data[0]), ",")
    ensures forall k :: 0 <= k < |data| ==> lines[k + 1] == Line(data[k], Keys(data[0]))
  {
    var headers := Keys(data[0]);
    [Join(headers, ",")] + Map(data, (r: Record) => Line(r, headers))
  }

  /** The CSV text, or nothing (no download) when there are no records. */
  function Csv(data: seq<Record>): (csv: Option<string>)
    ensures csv.None? <==> data == []
  {
    if data == [] then None else Some(Join(CsvLines(data), "\n"))
  }

  /**
    When no header and no value holds a line break, splitting the file at line breaks gives
    back its lines. A value with a line break is written unquoted, so it breaks its record over
    two lines.
  */
  lemma CsvSplitsIntoLines(data: seq<Record>)
    requires data != []
    requires forall k :: 0 <= k < |CsvLines(data)| ==> '\n' !in CsvLines(data)[k]
    ensures Split(Csv(data).value, c => c == '\n') == CsvLines(data)
  {
    SplitJoin(CsvLines(data), '\n');
  }

  // ---- reading a line back ----

  /**
    Reads the rest of a quoted field after its opening quote: the value, with each doubled quote
    read as one, and the text after the closing quote; `None` when the quote is never closed.
  */
  function ReadQuoted(s: string): (r: Option<(string, string)>)
    ensures r.Some? ==> |r.value.1| < |s|
    decreases |s|
  {
    if s == [] then None
    else if s[0] == '"' then
      if |s| >= 2 && s[1] == '"' then
        match ReadQuoted(s[2..])
        case None => None
        case Some(p) => Some(("\"" + p.0, p.1))
      else Some(("", s[1..]))
    else
      match ReadQuoted(s[1..])
      case None => None
      case Some(p) => Some(([s[0]] + p.0, p.1))
  }

  /** The index of the first comma at or after `i`, or the length of `s`. */
  function FieldEnd(s: string, i: nat): (k: nat)
    requires i <= |s|
    ensures i <= k <= |s| && (k < |s| ==> s[k] == ',')
    ensures forall j :: i <= j < k ==> s[j] != ','
    decreases |s| - i
  {
    if i == |s| || s[i] == ',' then i else FieldEnd(s, i + 1)
  }

  /** A field in front of the fields read after it. */
  function Prepend(field: string, rest: Option<seq<string>>): Option<seq<string>> {
    match rest
    case None => None
    case Some(fields) => Some([field] + fields)
  }

  /** The fields of one CSV record, quoted or not; `None` for a malformed quoted field. */
  function ParseRecord(s: string): (fields: Option<seq<string>>)
    ensures fields.Some? ==> |fields.value| >= 1
    decreases |s|
  {
    if s != [] && s[0] == '"' then
      match ReadQuoted(s[1..])
      case None => None
      case Some(p) =>
        if p.1 == [] then Some([p.0])
        else if p.1[0] != ',' then None
        else Prepend(p.0, ParseRecord(p.1[1..]))
    else
      var k := FieldEnd(s, 0);
      if k == |s| then Some([s])
      else Prepend(s[..k], ParseRecord(s[k + 1..]))
  }

  /** What reading `field` then `rest` gives, when `rest` is empty or starts with a comma. */
  function FieldThen(field: string, rest: string): Option<seq<string>>
    requires rest == [] || rest[0] == ','
  {
    if rest == [] then Some([field]) else Prepend(field, ParseRecord(rest[1..]))
  }

  /** Reading a quoted field back: the escaped text and its closing quote give the text. */
  lemma {:induction false} ReadQuotedEscape(t: string, rest: string)
    requires rest == [] || rest[0] != '"'
    ensures ReadQuoted(Escape(t) + "\"" + rest) == Some((t, rest))
    decreases |t|
  {
    var s := Escape(t) + "\"" + rest;
    if t == [] {
      assert s == "\"" + rest && s[1..] == rest;
    } else {
      ReadQuotedEscape(t[1..], rest);
      var tail := Escape(t[1..]) + "\"" + rest;
      if t[0] == '"' {
        assert s == "\"\"" + tail && s[2..] == tail;
        assert "\"" + t[1..] == t;
      } else {
        assert s == [t[0]] + tail && s[1..] == tail;
        assert [t[0]] + t[1..] == t;
      }
    }
  }

  /** Removing the outer quotes and undoubling the inner ones gives back the quoted text. */
  lemma QuoteRoundTrip(t: string)
    ensures ReadQuoted(Quote(t)[1..]) == Some((t, ""))
  {
    ReadQuotedEscape(t, "");
    assert Quote(t)[1..] == Escape(t) + "\"" + "";
  }

  /** The text a cell stands for once read back. */
  function CellText(v: Value): string {
    Render(v)
  }

  /** Reading back a data line gives the text of each of the record's values, in header order. */
  lemma LineRoundTrip(r: Record, headers: seq<string>)
    requires headers != []
    ensures ParseRecord(Line(r, headers)) == Some(Map(Row(r, headers), CellText))
  {
    ParseCells(Row(r, headers));
  }

  /** Reading back a line of cells gives each cell's text, in order. */
  lemma ParseCells(cells: seq<Value>)
    requires |cells| >= 1
    ensures ParseRecord(Join(Map(cells, Cell), ",")) == Some(Map(cells, CellText))
  {
    ParseJoin(Map(cells, Cell), Map(cells, CellText));
  }

  /** `e` is the text `t` written as a field: quoted, or as it is when it needs no quotes. */
  predicate EncodesAs(e: string, t: string) {
    e == Quote(t) || (e == t && !NeedsQuotes(t))
  }

  /** Reading back fields joined by commas gives their texts, in order. */
  lemma {:induction false} ParseJoin(encoded: seq<string>, texts: seq<string>)
    requires |encoded| == |texts| >= 1
    requires forall k :: 0 <= k < |encoded| ==> EncodesAs(encoded[k], texts[k])
    ensures ParseRecord(Join(encoded, ",")) == Some(texts)
    decreases |encoded|
  {
    if |encoded| == 1 {
      ParseField(encoded[0], texts[0], "");
      assert encoded[0] + "" == encoded[0];
      assert texts == [texts[0]];
    } else {
      var j := Join(encoded[1..], ",");
      ParseJoin(encoded[1..], texts[1..]);
      ParseField(encoded[0], texts[0], "," + j);
      assert ("," + j)[1..] == j;
      assert encoded[0] + ("," + j) == Join(encoded, ",");
      assert texts == [texts[0]] + texts[1..];
    }
  }

  /** A field followed by nothing or by a comma and more text is read back as its text, then that text. */
  lemma ParseField(e: string, t: string, rest: string)
    requires EncodesAs(e, t) && (rest == [] || rest[0] == ',')
    ensures ParseRecord(e + rest) == FieldThen(t, rest)
  {
    if e == Quote(t) {
      ParseQuotedCell(t, rest);
    } else {
      ParsePlainCell(t, rest);
    }
  }

  lemma ParseQuotedCell(t: string, rest: string)
    requires rest == [] || rest[0] == ','
    ensures ParseRecord(Quote(t) + rest) == FieldThen(t, rest)
  {
    var s := Quote(t) + rest;
    ReadQuotedEscape(t, rest);
    assert s[1..] == Escape(t) + "\"" + rest;
  }

  lemma ParsePlainCell(t: string, rest: string)
    requires !NeedsQuotes(t) && (rest == [] || rest[0] == ',')
    ensures ParseRecord(t + rest) == FieldThen(t, rest)
  {
    var s := t + rest;
    assert forall j :: 0 <= j < |t| ==> s[j] == t[j] && s[j] != ',';
    assert t != [] ==> s[0] != '"';
    FieldEndAt(s, |t|);
    assert s[..|t|] == t;
    if rest == [] {
      assert s == t;
    } else {
      assert s[|t| + 1..] == rest[1..];
    }
  }

  lemma FieldEndAt(s: string, k: nat)
    requires k <= |s| && (k < |s| ==> s[k] == ',')
    requires forall j :: 0 <= j < k ==> s[j] != ','
    ensures FieldEnd(s, 0) == k
  {
    FieldEndFrom(s, 0, k);
  }

  lemma {:induction false} FieldEndFrom(s: string, i: nat, k: nat)
    requires i <= k <= |s| && (k < |s| ==> s[k] == ',')
    requires forall j :: i <= j < k ==> s[j] != ','
    ensures FieldEnd(s, i) == k
    decreases k - i
  {
    if i < k {
      FieldEndFrom(s, i + 1, k);
    }
  }
}
