/**
 * The CSV text built by `exportToCSV` (src/lib/export.ts): a header line,
 * then one line per attendee with its four fields double-quoted and
 * comma-separated, lines joined by a newline. The Blob and the download
 * link are not modelled; the text and the `.csv` file name are.
 */
module Export {
  import opened Seqs
  import opened Types

  /** JavaScript's `Array.prototype.join` with a one-character separator. */
  function Join(parts: seq<string>, sep: char): (r: string)
    ensures |parts| == 0 ==> r == ""
    ensures |parts| == 1 ==> r == parts[0]
  {
    if |parts| == 0 then ""
    else if |parts| == 1 then parts[0]
    else parts[0] + [sep] + Join(parts[1..], sep)
  }

  /** A joined text starts with its first part, then the separator if more parts follow. */
  lemma JoinHead(parts: seq<string>, sep: char)
    requires |parts| >= 1
    ensures parts[0] <= Join(parts, sep)
    ensures |parts| >= 2 ==> |Join(parts, sep)| > |parts[0]| && Join(parts, sep)[|parts[0]|] == sep
  {
  }

  /** JavaScript's `String.prototype.split` on a one-character separator: never empty. */
  function Split(s: string, sep: char): (r: seq<string>)
    ensures |r| >= 1
    ensures |r| == 1 + |Filter((c: char) => c == sep, s)|
  {
    if |s| == 0 then [""]
    else if s[0] == sep then [""] + Split(s[1..], sep)
    else
      var rest := Split(s[1..], sep);
      [[s[0]] + rest[0]] + rest[1..]
  }

  /** Splitting text that starts with a separator-free piece glues that piece to the first part. */
  lemma {:induction false} SplitGlue(p: string, rest: string, sep: char)
    requires sep !in p
    ensures Split(p + rest, sep) == [p + Split(rest, sep)[0]] + Split(rest, sep)[1..]
  {
    if |p| > 0 {
      assert (p + rest)[0] == p[0];
      assert (p + rest)[1..] == p[1..] + rest;
      SplitGlue(p[1..], rest, sep);
      assert [p[0]] + (p[1..] + Split(rest, sep)[0]) == p + Split(rest, sep)[0];
    } else {
      assert p + rest == rest;
      assert p + Split(rest, sep)[0] == Split(rest, sep)[0];
      assert Split(rest, sep) == [Split(rest, sep)[0]] + Split(rest, sep)[1..];
    }
  }

  /** A separator-free piece followed by a separator comes out of `Split` as one part. */
  lemma SplitPrefix(p: string, rest: string, sep: char)
    requires sep !in p
    ensures Split(p + [sep] + rest, sep) == [p] + Split(rest, sep)
  {
    SplitGlue(p, [sep] + rest, sep);
    assert p + [sep] + rest == p + ([sep] + rest);
    assert ([sep] + rest)[1..] == rest;
    assert Split([sep] + rest, sep) == [""] + Split(rest, sep);
    assert p + "" == p;
  }

  /** Split undoes Join when no part contains the separator. */
  lemma {:induction false} SplitJoin(parts: seq<string>, sep: char)
    requires |parts| >= 1
    requires forall i :: 0 <= i < |parts| ==> sep !in parts[i]
    ensures Split(Join(parts, sep), sep) == parts
  {
    if |parts| == 1 {
      SplitGlue(parts[0], "", sep);
      assert parts[0] + "" == parts[0];
    } else {
      SplitJoin(parts[1..], sep);
      SplitPrefix(parts[0], Join(parts[1..], sep), sep);
    }
  }

  /** A joined text holds no character that is neither the separator nor in some part. */
  lemma {:induction false} JoinAvoids(parts: seq<string>, sep: char, c: char)
    requires c != sep
    requires forall i :: 0 <= i < |parts| ==> c !in parts[i]
    ensures c !in Join(parts, sep)
  {
    if |parts| >= 2 {
      JoinAvoids(parts[1..], sep, c);
    }
  }

  /** A joined text ends with its last part. */
  lemma {:induction false} JoinEndsWithLast(parts: seq<string>, sep: char)
    requires |parts| >= 1
    ensures |parts[|parts| - 1]| <= |Join(parts, sep)|
    ensures Join(parts, sep)[|Join(parts, sep)| - |parts[|parts| - 1]|..] == parts[|parts| - 1]
  {
    if |parts| >= 2 {
      JoinEndsWithLast(parts[1..], sep);
      var tail := Join(parts[1..], sep);
      var r := Join(parts, sep);
      assert r == (parts[0] + [sep]) + tail;
      assert r[|r| - |tail|..] == tail;
    }
  }

  const Headers: seq<string> := ["First Name", "Last Name", "Room Number", "Breakfast Status"]

  /** `headers.join(',')` */
  function HeaderLine(): (r: string)
    ensures '\n' !in r
    ensures |r| > 0 && r[|r| - 1] == 's'
  {
    JoinAvoids(Headers, ',', '\n');
    JoinEndsWithLast(Headers, ',');
    Join(Headers, ',')
  }

  /** The header line spelled out: the four column titles separated by commas. */
  lemma HeaderLineText()
    ensures HeaderLine() == "First Name" + "," + "Last Name" + "," + "Room Number" + "," + "Breakfast Status"
  {
    var h := Headers;
    assert h[1..][1..][1..] == ["Breakfast Status"];
    assert Join(h[1..][1..], ',') == "Room Number" + [','] + "Breakfast Status";
    assert Join(h[1..], ',') == "Last Name" + [','] + ("Room Number" + [','] + "Breakfast Status");
  }

  /** The status as the text the record carries. */
  function StatusText(s: BreakfastStatus): (r: string)
    ensures r == "Pending" <==> s == Pending
    ensures r == "Served" <==> s == Served
  {
    match s
    case Pending => "Pending"
    case Served => "Served"
  }

  /** A field wrapped in double quotes, contents verbatim (no escaping). */
  function Quote(field: string): (r: string)
    ensures |r| == |field| + 2 && r[0] == '"' && r[|r| - 1] == '"'
    ensures r[1..|r| - 1] == field
  {
    "\"" + field + "\""
  }

  /** Strips the first and last character: the inverse of `Quote`. */
  function Unquote(s: string): string {
    if |s| < 2 then s else s[1..|s| - 1]
  }

  /** The four quoted cells of one attendee line, in column order. */
  function Cells(a: Attendee): seq<string> {
    [Quote(a.firstName), Quote(a.lastName), Quote(a.roomNumber), Quote(StatusText(a.breakfastStatus))]
  }

  /** One data line: the four quoted cells joined by commas. */
  function RowLine(a: Attendee): (r: string)
    ensures |r| > 0 && r[0] == '"' && r[|r| - 1] == '"'
  {
    var cells := Cells(a);
    JoinEndsWithLast(cells, ',');
    JoinHead(cells, ',');
    Join(cells, ',')
  }

  /**
   * Fields go into a line verbatim: the first name sits unchanged right
   * after the opening quote, and the line is exactly the fields plus eight
   * quotes and three commas, so nothing is escaped.
   */
  lemma RowLineVerbatim(a: Attendee)
    ensures |RowLine(a)| > |a.firstName| + 1 && RowLine(a)[1..|a.firstName| + 1] == a.firstName
    ensures |RowLine(a)| == |a.firstName| + |a.lastName| + |a.roomNumber| + |StatusText(a.breakfastStatus)| + 11
  {
    var cells := Cells(a);
    JoinHead(cells, ',');
    assert RowLine(a)[1..|a.firstName| + 1] == cells[0][1..|cells[0]| - 1];
    assert Join(cells[2..], ',') == cells[2] + [','] + cells[3] by {
      assert cells[2..][1..] == [cells[3]];
    }
    assert Join(cells[1..], ',') == cells[1] + [','] + Join(cells[2..], ',') by {
      assert cells[1..][1..] == cells[2..];
    }
  }

  /** `csvRows`: the header line, then one line per attendee in input order. */
  function CsvRows(data: seq<Attendee>): (r: seq<string>)
    ensures |r| == |data| + 1 && r[0] == HeaderLine()
    ensures r[1..] == Map(RowLine, data)
  {
    [HeaderLine()] + Map(RowLine, data)
  }

  /** Line i + 1 is built from attendee i. */
  lemma CsvRowAt(data: seq<Attendee>, i: int)
    requires 0 <= i < |data|
    ensures CsvRows(data)[i + 1] == RowLine(data[i])
  {
    assert CsvRows(data)[i + 1] == CsvRows(data)[1..][i];
  }

  /** `csvString` */
  function CsvString(data: seq<Attendee>): string {
    Join(CsvRows(data), '\n')
  }

  /** The download attribute `${filename}.csv`. */
  function DownloadName(base: string): (r: string)
    ensures |r| == |base| + 4 && base <= r && r[|base|..] == ".csv"
  {
    base + ".csv"
  }

  /** No field of the attendee contains a newline. */
  predicate NoNewline(a: Attendee) {
    '\n' !in a.firstName && '\n' !in a.lastName && '\n' !in a.roomNumber
  }

  /** No field of the attendee contains a comma. */
  predicate NoComma(a: Attendee) {
    ',' !in a.firstName && ',' !in a.lastName && ',' !in a.roomNumber
  }

  /** The text starts with the header line, followed by a newline when there is data. */
  lemma CsvStartsWithHeader(data: seq<Attendee>)
    ensures HeaderLine() <= CsvString(data)
    ensures |data| == 0 ==> CsvString(data) == HeaderLine()
    ensures |data| > 0 ==> CsvString(data)[|HeaderLine()|] == '\n'
  {
    JoinHead(CsvRows(data), '\n');
  }

  /** A joined text ends with the last character of its last part. */
  lemma JoinLastChar(parts: seq<string>, sep: char)
    requires |parts| >= 1 && |parts[|parts| - 1]| > 0
    ensures |Join(parts, sep)| > 0
    ensures Join(parts, sep)[|Join(parts, sep)| - 1] == parts[|parts| - 1][|parts[|parts| - 1]| - 1]
  {
    JoinEndsWithLast(parts, sep);
    var r := Join(parts, sep);
    var last := parts[|parts| - 1];
    assert r[|r| - 1] == r[|r| - |last|..][|last| - 1];
  }

  /** The text never ends with a newline: its last character closes a quote or the header. */
  lemma CsvNoTrailingNewline(data: seq<Attendee>)
    ensures |CsvString(data)| > 0 && CsvString(data)[|CsvString(data)| - 1] != '\n'
  {
    var rows := CsvRows(data);
    var last := rows[|rows| - 1];
    if |data| > 0 {
      CsvRowAt(data, |data| - 1);
      assert last[|last| - 1] == '"';
    } else {
      assert last[|last| - 1] == 's';
    }
    JoinLastChar(rows, '\n');
  }

  /** A data line holds a newline only if one of the attendee's fields does. */
  lemma RowLineNoNewline(a: Attendee)
    requires NoNewline(a)
    ensures '\n' !in RowLine(a)
  {
    var cells := Cells(a);
    forall i | 0 <= i < |cells| ensures '\n' !in cells[i] {
      assert cells[i][1..|cells[i]| - 1] in
        [a.firstName, a.lastName, a.roomNumber, StatusText(a.breakfastStatus)];
      assert cells[i] == "\"" + cells[i][1..|cells[i]| - 1] + "\"";
    }
    JoinAvoids(cells, ',', '\n');
  }

  /**
   * When no field contains a newline, splitting the text on newlines gives
   * back exactly the header and one line per attendee, in input order.
   */
  lemma CsvLines(data: seq<Attendee>)
    requires forall i :: 0 <= i < |data| ==> NoNewline(data[i])
    ensures Split(CsvString(data), '\n') == CsvRows(data)
    ensures |Split(CsvString(data), '\n')| == |data| + 1
    ensures Split(CsvString(data), '\n')[0] == HeaderLine()
    ensures forall i :: 0 <= i < |data| ==> Split(CsvString(data), '\n')[i + 1] == RowLine(data[i])
  {
    var rows := CsvRows(data);
    forall i | 0 <= i < |rows| ensures '\n' !in rows[i] {
      if i > 0 {
        CsvRowAt(data, i - 1);
        RowLineNoNewline(data[i - 1]);
      }
    }
    SplitJoin(rows, '\n');
    forall i | 0 <= i < |data| ensures rows[i + 1] == RowLine(data[i]) {
      CsvRowAt(data, i);
    }
  }

  /**
   * Reading a data line back: splitting on commas and unquoting each cell
   * gives the attendee's four fields in column order, provided no field
   * contains a comma. Embedded quotes survive because the cells are
   * inserted verbatim.
   */
  lemma RowLineDecodes(a: Attendee)
    requires NoComma(a)
    ensures |Split(RowLine(a), ',')| == 4
    ensures Unquote(Split(RowLine(a), ',')[0]) == a.firstName
    ensures Unquote(Split(RowLine(a), ',')[1]) == a.lastName
    ensures Unquote(Split(RowLine(a), ',')[2]) == a.roomNumber
    ensures Unquote(Split(RowLine(a), ',')[3]) == StatusText(a.breakfastStatus)
  {
    var cells := Cells(a);
    forall i | 0 <= i < |cells| ensures ',' !in cells[i] {
      assert cells[i][1..|cells[i]| - 1] in
        [a.firstName, a.lastName, a.roomNumber, StatusText(a.breakfastStatus)];
      assert cells[i] == "\"" + cells[i][1..|cells[i]| - 1] + "\"";
    }
    SplitJoin(cells, ',');
  }
}
