/** The CSV reader of the importers: a quote-aware line parser and the file parser around it. */
module Csv {
  import opened Text

  const MAX_COLS: nat := 200
  const MAX_ROWS: nat := 10000

  const QUOTE: char := '"'
  const COMMA: char := ','

  // ---------------------------------------------------------------- one line

  /** The fields found from `rest` on, after `result` and with `current` begun. */
  function Scan(rest: string, inQuotes: bool, current: string, result: seq<string>): (r: seq<string>)
    requires |result| < MAX_COLS
    ensures |result| < |r| <= MAX_COLS && result <= r
    decreases |rest|
  {
    if rest == "" then result + [current]
    else if inQuotes then
      if rest[0] == QUOTE && |rest| > 1 && rest[1] == QUOTE then Scan(rest[2..], true, current + [QUOTE], result)
      else if rest[0] == QUOTE then Scan(rest[1..], false, current, result)
      else Scan(rest[1..], true, current + [rest[0]], result)
    else if rest[0] == QUOTE then Scan(rest[1..], true, current, result)
    else if rest[0] == COMMA then
      if |result| + 1 >= MAX_COLS then result + [current] else Scan(rest[1..], false, "", result + [current])
    else Scan(rest[1..], false, current + [rest[0]], result)
  }

  function Fields(line: string): (r: seq<string>)
    ensures 1 <= |r| <= MAX_COLS
  {
    Scan(line, false, "", [])
  }

  method ParseLine(line: string) returns (result: seq<string>)
    ensures result == Fields(line)
  {
    result := [];
    var current := "";
    var inQuotes := false;
    var i := 0;
    while i < |line|
      invariant 0 <= i <= |line|
      invariant |result| < MAX_COLS
      invariant Scan(line[i..], inQuotes, current, result) == Fields(line)
      decreases |line| - i
    {
      var ch := line[i];
      if inQuotes {
        if ch == QUOTE && i + 1 < |line| && line[i + 1] == QUOTE {
          current := current + [QUOTE];
          i := i + 1;
        } else if ch == QUOTE {
          inQuotes := false;
        } else {
          current := current + [ch];
        }
      } else {
        if ch == QUOTE {
          inQuotes := true;
        } else if ch == COMMA {
          result := result + [current];
          current := "";
          if |result| >= MAX_COLS { break; }
        } else {
          current := current + [ch];
        }
      }
      i := i + 1;
    }
    if |result| < MAX_COLS {
      result := result + [current];
    }
  }

  // ---------------------------------------------------------------- section 2 of RFC 4180

  function Doubled(field: string): string {
    if field == "" then ""
    else (if field[0] == QUOTE then [QUOTE, QUOTE] else [field[0]]) + Doubled(field[1..])
  }

  function Quoted(field: string): string {
    [QUOTE] + Doubled(field) + [QUOTE]
  }

  /** A field is written in quotes, or as it is when it holds neither a quote nor a comma. */
  predicate IsWritten(text: string, field: string) {
    text == Quoted(field) || (text == field && IsPlain(field))
  }

  predicate IsPlain(s: string) {
    QUOTE !in s && COMMA !in s
  }

  lemma {:induction false} ScanPlain(text: string, rest: string, current: string, result: seq<string>)
    requires |result| < MAX_COLS && IsPlain(text)
    ensures Scan(text + rest, false, current, result) == Scan(rest, false, current + text, result)
    decreases |text|
  {
    if text == "" {
      assert text + rest == rest && current + text == current;
    } else {
      assert (text + rest)[0] == text[0] && (text + rest)[1..] == text[1..] + rest;
      ScanPlain(text[1..], rest, current + [text[0]], result);
      assert current + [text[0]] + text[1..] == current + text;
    }
  }

  lemma {:induction false} ScanDoubled(field: string, rest: string, current: string, result: seq<string>)
    requires |result| < MAX_COLS && (rest == "" || rest[0] != QUOTE)
    ensures Scan(Doubled(field) + [QUOTE] + rest, true, current, result) == Scan(rest, false, current + field, result)
    decreases |field|
  {
    var s := Doubled(field) + [QUOTE] + rest;
    if field == "" {
      assert s[0] == QUOTE && s[1..] == rest && current + field == current;
    } else {
      var tail := Doubled(field[1..]) + [QUOTE] + rest;
      ScanDoubled(field[1..], rest, current + [field[0]], result);
      assert current + [field[0]] + field[1..] == current + field;
      if field[0] == QUOTE {
        assert s[0] == QUOTE && s[1] == QUOTE && s[2..] == tail;
      } else {
        assert s[0] == field[0] && s[1..] == tail;
      }
    }
  }

  lemma {:induction false} ScanOpens(rest: string, current: string, result: seq<string>)
    requires |result| < MAX_COLS
    ensures Scan([QUOTE] + rest, false, current, result) == Scan(rest, true, current, result)
  {
    assert ([QUOTE] + rest)[1..] == rest;
  }

  lemma {:induction false} ScanWritten(text: string, field: string, rest: string, result: seq<string>)
    requires |result| < MAX_COLS && IsWritten(text, field) && (rest == "" || rest[0] != QUOTE)
    ensures Scan(text + rest, false, "", result) == Scan(rest, false, field, result)
  {
    hide Scan, Doubled, IsPlain;
    if text == Quoted(field) {
      var s := Doubled(field) + [QUOTE] + rest;
      assert text + rest == [QUOTE] + s;
      ScanOpens(s, "", result);
      ScanDoubled(field, rest, "", result);
      assert "" + field == field;
    } else {
      ScanPlain(text, rest, "", result);
      assert "" + field == field;
    }
  }

  function FirstOf<T>(s: seq<T>, n: nat): seq<T> {
    if |s| <= n then s else s[..n]
  }

  /** The last field takes whatever follows the last written one on the line. */
  function WithTail(fields: seq<string>, tail: string): seq<string>
    requires |fields| > 0
  {
    fields[|fields| - 1 := fields[|fields| - 1] + tail]
  }

  lemma {:induction false} ScanLine(texts: seq<string>, fields: seq<string>, tail: string, result: seq<string>)
    requires |result| < MAX_COLS && |texts| == |fields| > 0 && IsPlain(tail)
    requires forall i :: 0 <= i < |texts| ==> IsWritten(texts[i], fields[i])
    ensures Scan(Join(texts, COMMA) + tail, false, "", result) == FirstOf(result + WithTail(fields, tail), MAX_COLS)
    decreases |texts|
  {
    if |texts| == 1 {
      ScanWritten(texts[0], fields[0], tail, result);
      ScanPlain(tail, "", fields[0], result);
      assert tail + "" == tail;
      assert WithTail(fields, tail) == [fields[0] + tail];
    } else {
      var rest := [COMMA] + Join(texts[1..], COMMA) + tail;
      assert Join(texts, COMMA) + tail == texts[0] + rest;
      ScanWritten(texts[0], fields[0], rest, result);
      assert rest[0] == COMMA && rest[1..] == Join(texts[1..], COMMA) + tail;
      var whole := result + WithTail(fields, tail);
      assert whole[|result|] == fields[0] && |whole| > |result| + 1;
      if |result| + 1 >= MAX_COLS {
        assert whole[..MAX_COLS] == result + [fields[0]];
      } else {
        ScanLine(texts[1..], fields[1..], tail, result + [fields[0]]);
        assert result + [fields[0]] + WithTail(fields[1..], tail) == whole;
      }
    }
  }

  /** Reading gives back what was written: every field, or the first 200 of a longer line. */
  lemma {:induction false} LineRoundTrip(texts: seq<string>, fields: seq<string>)
    requires |texts| == |fields| > 0
    requires forall i :: 0 <= i < |texts| ==> IsWritten(texts[i], fields[i])
    ensures Fields(Join(texts, COMMA)) == FirstOf(fields, MAX_COLS)
  {
    ScanLine(texts, fields, "", []);
    assert Join(texts, COMMA) + "" == Join(texts, COMMA);
    assert fields[|fields| - 1] + "" == fields[|fields| - 1];
    assert WithTail(fields, "") == fields;
    assert [] + fields == fields;
  }

  // ---------------------------------------------------------------- quotes anywhere

  predicate OddQuotes(s: string) {
    s != "" && OddQuotes(s[..|s| - 1]) != (s[|s| - 1] == QUOTE)
  }

  /** The commas with an even number of quotes before them. */
  function OpenCommas(s: string): nat {
    if s == "" then 0
    else OpenCommas(s[..|s| - 1]) + if s[|s| - 1] == COMMA && !OddQuotes(s[..|s| - 1]) then 1 else 0
  }

  lemma {:induction false} OneMore(s: string, c: char)
    ensures OddQuotes(s + [c]) <==> OddQuotes(s) != (c == QUOTE)
    ensures OpenCommas(s + [c]) == OpenCommas(s) + if c == COMMA && !OddQuotes(s) then 1 else 0
  {
    assert (s + [c])[..|s|] == s;
  }

  /** The same count from the other end: the commas ahead that are outside quotes. */
  function CommasAhead(rest: string, inQuotes: bool): nat {
    if rest == "" then 0
    else if rest[0] == QUOTE then CommasAhead(rest[1..], !inQuotes)
    else (if rest[0] == COMMA && !inQuotes then 1 else 0) + CommasAhead(rest[1..], inQuotes)
  }

  lemma {:induction false} CommasAheadAreOpen(read: string, rest: string)
    ensures OpenCommas(read + rest) == OpenCommas(read) + CommasAhead(rest, OddQuotes(read))
    decreases |rest|
  {
    if rest == "" {
      assert read + rest == read;
    } else {
      hide OpenCommas, OddQuotes;
      assert read + [rest[0]] + rest[1..] == read + rest;
      OneMore(read, rest[0]);
      CommasAheadAreOpen(read + [rest[0]], rest[1..]);
    }
  }

  lemma {:induction false} ScanCount(rest: string, inQuotes: bool, current: string, result: seq<string>)
    requires |result| < MAX_COLS
    ensures var n := |result| + 1 + CommasAhead(rest, inQuotes);
            |Scan(rest, inQuotes, current, result)| == if n < MAX_COLS then n else MAX_COLS
    decreases |rest|
  {
    if rest != "" {
      if inQuotes && rest[0] == QUOTE && |rest| > 1 && rest[1] == QUOTE {
        assert CommasAhead(rest, true) == CommasAhead(rest[1..], false) == CommasAhead(rest[2..], true);
        ScanCount(rest[2..], true, current + [QUOTE], result);
      } else if rest[0] == QUOTE {
        ScanCount(rest[1..], !inQuotes, current, result);
      } else if !inQuotes && rest[0] == COMMA {
        if |result| + 1 < MAX_COLS { ScanCount(rest[1..], false, "", result + [current]); }
      } else {
        ScanCount(rest[1..], inQuotes, current + [rest[0]], result);
      }
    }
  }

  /** On any line at all, exactly the commas with an even number of quotes before them separate fields. */
  lemma {:induction false} FieldCount(line: string)
    ensures |Fields(line)| == if OpenCommas(line) < MAX_COLS then OpenCommas(line) + 1 else MAX_COLS
  {
    ScanCount(line, false, "", []);
    CommasAheadAreOpen("", line);
    assert "" + line == line;
  }

  lemma {:induction false} ScanQuoted(text: string, current: string, result: seq<string>)
    requires |result| < MAX_COLS && QUOTE !in text
    ensures Scan(text, true, current, result) == result + [current + text]
    decreases |text|
  {
    if text == "" {
      assert current + text == current;
    } else {
      ScanQuoted(text[1..], current + [text[0]], result);
      assert current + [text[0]] + text[1..] == current + text;
    }
  }

  /** A lone quote inside an unquoted field is dropped, and the rest of the line is that field's, commas and all. */
  lemma {:induction false} LoneQuoteTakesTheRest(texts: seq<string>, fields: seq<string>, start: string, rest: string)
    requires |texts| == |fields| < MAX_COLS && IsPlain(start) && QUOTE !in rest
    requires forall i :: 0 <= i < |texts| ==> IsWritten(texts[i], fields[i])
    ensures Fields(Join(texts + [start + [QUOTE] + rest], COMMA)) == fields + [start + rest]
  {
    hide Scan, Join, IsPlain, IsWritten;
    var quoted := [QUOTE] + rest;
    ScanFields(texts, fields, start + [QUOTE] + rest, []);
    assert start + quoted == start + [QUOTE] + rest;
    assert [] + fields == fields && "" + start == start;
    ScanPlain(start, quoted, "", fields);
    ScanOpens(rest, start, fields);
    ScanQuoted(rest, start, fields);
  }

  /** Written fields in front of the last one are read first. */
  lemma {:induction false} ScanFields(texts: seq<string>, fields: seq<string>, last: string, result: seq<string>)
    requires |texts| == |fields| && |result| + |fields| < MAX_COLS
    requires forall i :: 0 <= i < |texts| ==> IsWritten(texts[i], fields[i])
    ensures Scan(Join(texts + [last], COMMA), false, "", result) == Scan(last, false, "", result + fields)
    decreases |texts|
  {
    if texts == [] {
      assert texts + [last] == [last] && result + fields == result;
    } else {
      var rest := [COMMA] + Join(texts[1..] + [last], COMMA);
      assert (texts + [last])[0] == texts[0] && (texts + [last])[1..] == texts[1..] + [last];
      assert Join(texts + [last], COMMA) == texts[0] + rest;
      ScanWritten(texts[0], fields[0], rest, result);
      assert rest[0] == COMMA && rest[1..] == Join(texts[1..] + [last], COMMA);
      ScanFields(texts[1..], fields[1..], last, result + [fields[0]]);
      assert result + [fields[0]] + fields[1..] == result + fields;
    }
  }

  // ---------------------------------------------------------------- the file

  const NEWLINE: char := '\n'

  type Row = map<string, string>

  const PROTO: string := "__proto__"

  /** The first n columns of a row; a string assigned to __proto__ is ignored. */
  function Columns(headers: seq<string>, values: seq<string>, n: nat): Row
    requires n <= |headers|
  {
    if n == 0 then map[]
    else
      var row := Columns(headers, values, n - 1);
      var key := Trim(headers[n - 1]);
      if key == PROTO then row else row[key := Trim(if n - 1 < |values| then values[n - 1] else "")]
  }

  function RowOf(headers: seq<string>, values: seq<string>): Row {
    Columns(headers, values, |headers|)
  }

  function Rows(csv: string): seq<Row> {
    var lines := Split(Trim(csv), NEWLINE);
    seq(if |lines| - 1 < MAX_ROWS then |lines| - 1 else MAX_ROWS,
        i requires 0 <= i < |lines| - 1 => RowOf(Fields(lines[0]), Fields(lines[i + 1])))
  }

  method ParseCsv(csv: string) returns (rows: seq<Row>)
    ensures rows == Rows(csv)
  {
    hide Fields, Columns, Split, Trim;
    var lines := Split(Trim(csv), NEWLINE);
    if |lines| < 2 { return []; }
    var headers := ParseLine(lines[0]);
    rows := [];
    var limit := if |lines| < MAX_ROWS + 1 then |lines| else MAX_ROWS + 1;
    for i := 1 to limit
      invariant |rows| == i - 1
      invariant forall k :: 0 <= k < |rows| ==> rows[k] == RowOf(Fields(lines[0]), Fields(lines[k + 1]))
    {
      var values := ParseLine(lines[i]);
      var row := BuildRow(headers, values);
      rows := rows + [row];
    }
  }

  method BuildRow(headers: seq<string>, values: seq<string>) returns (row: Row)
    ensures row == RowOf(headers, values)
  {
    row := map[];
    for j := 0 to |headers|
      invariant row == Columns(headers, values, j)
    {
      var key := Trim(headers[j]);
      if key != PROTO { row := row[key := Trim(if j < |values| then values[j] else "")]; }
    }
  }

  // ---------------------------------------------------------------- what a row holds

  /** With distinct headers a row gives each of them the value of its column, and nothing else. */
  lemma {:induction false} ColumnsHold(headers: seq<string>, values: seq<string>, n: nat)
    requires n <= |headers|
    requires forall i, j :: 0 <= i < j < n ==> Trim(headers[i]) != Trim(headers[j])
    requires forall i :: 0 <= i < n ==> Trim(headers[i]) != PROTO
    ensures forall i :: 0 <= i < n ==>
              && Trim(headers[i]) in Columns(headers, values, n)
              && Columns(headers, values, n)[Trim(headers[i])] == Trim(if i < |values| then values[i] else "")
    ensures forall key :: key in Columns(headers, values, n) ==> exists i :: 0 <= i < n && Trim(headers[i]) == key
  {
    hide Trim;
    if n > 0 {
      ColumnsHold(headers, values, n - 1);
    }
  }

  // ---------------------------------------------------------------- writing a file and reading it back

  predicate IsEol(eol: string) {
    eol == "\n" || eol == "\r\n"
  }

  function JoinQuoted(fields: seq<string>): string
    requires |fields| > 0
  {
    Join(seq(|fields|, i requires 0 <= i < |fields| => Quoted(fields[i])), COMMA)
  }

  /** Quoted lines, each ended by eol except the last. */
  function Write(records: seq<seq<string>>, eol: string): string
    requires |records| > 0 && forall i :: 0 <= i < |records| ==> |records[i]| > 0
  {
    if |records| == 1 then JoinQuoted(records[0]) else JoinQuoted(records[0]) + eol + Write(records[1..], eol)
  }

  lemma {:induction false} DoubledHolds(field: string, c: char)
    ensures c in Doubled(field) <==> c in field
  {
    if field != "" {
      DoubledHolds(field[1..], c);
      assert field == [field[0]] + field[1..];
    }
  }

  lemma {:induction false} JoinHolds(texts: seq<string>, c: char)
    requires |texts| > 0 && c != COMMA && forall i :: 0 <= i < |texts| ==> c !in texts[i]
    ensures c !in Join(texts, COMMA)
  {
    if |texts| > 1 {
      JoinHolds(texts[1..], c);
    }
  }

  lemma {:induction false} JoinEnds(texts: seq<string>)
    requires |texts| > 0 && forall i :: 0 <= i < |texts| ==>
               |texts[i]| > 1 && texts[i][0] == QUOTE && texts[i][|texts[i]| - 1] == QUOTE
    ensures var s := Join(texts, COMMA); |s| > 1 && s[0] == QUOTE && s[|s| - 1] == QUOTE
  {
    if |texts| > 1 {
      JoinEnds(texts[1..]);
    }
  }

  predicate AreRecords(records: seq<seq<string>>) {
    forall i :: 0 <= i < |records| ==> |records[i]| > 0
  }

  predicate HoldsNoNewline(fields: seq<string>) {
    forall j :: 0 <= j < |fields| ==> NEWLINE !in fields[j]
  }

  predicate HoldNoNewline(records: seq<seq<string>>) {
    forall i :: 0 <= i < |records| ==> HoldsNoNewline(records[i])
  }

  lemma JoinQuotedFacts(fields: seq<string>)
    requires |fields| > 0
    ensures var s := JoinQuoted(fields); |s| > 1 && s[0] == QUOTE && s[|s| - 1] == QUOTE
    ensures HoldsNoNewline(fields) ==> NEWLINE !in JoinQuoted(fields)
    ensures forall tail :: IsPlain(tail) ==>
              Fields(JoinQuoted(fields) + tail) == FirstOf(WithTail(fields, tail), MAX_COLS)
  {
    var texts := seq(|fields|, i requires 0 <= i < |fields| => Quoted(fields[i]));
    assert forall i :: 0 <= i < |texts| ==> IsWritten(texts[i], fields[i]);
    JoinEnds(texts);
    if HoldsNoNewline(fields) {
      forall i | 0 <= i < |texts| ensures NEWLINE !in texts[i] {
        DoubledHolds(fields[i], NEWLINE);
      }
      JoinHolds(texts, NEWLINE);
    }
    hide IsWritten, Join, Scan, WithTail, Quoted;
    forall tail | IsPlain(tail) ensures Fields(JoinQuoted(fields) + tail) == FirstOf(WithTail(fields, tail), MAX_COLS) {
      ScanLine(texts, fields, tail, []);
      assert [] + WithTail(fields, tail) == WithTail(fields, tail);
    }
  }

  lemma {:induction false} WriteEnds(records: seq<seq<string>>, eol: string)
    requires |records| > 0 && AreRecords(records)
    ensures var s := Write(records, eol); |s| > 1 && s[0] == QUOTE && s[|s| - 1] == QUOTE
  {
    hide JoinQuoted;
    JoinQuotedFacts(records[0]);
    if |records| > 1 {
      WriteEnds(records[1..], eol);
    }
  }

  /** What is left of the line end once the file is cut at the newlines. */
  function CarriedTail(i: nat, n: nat, eol: string): string
    requires IsEol(eol)
  {
    if i + 1 < n then eol[..|eol| - 1] else ""
  }

  lemma {:induction false} WriteLines(records: seq<seq<string>>, eol: string)
    requires |records| > 0 && AreRecords(records) && HoldNoNewline(records) && IsEol(eol)
    ensures var lines := Split(Write(records, eol), NEWLINE);
            && |lines| == |records|
            && forall i :: 0 <= i < |lines| ==> lines[i] == JoinQuoted(records[i]) + CarriedTail(i, |records|, eol)
  {
    hide JoinQuoted;
    JoinQuotedFacts(records[0]);
    if |records| == 1 {
      SplitFirst(JoinQuoted(records[0]), NEWLINE, "");
      assert JoinQuoted(records[0]) + "" == JoinQuoted(records[0]);
    } else {
      var line := JoinQuoted(records[0]) + eol[..|eol| - 1];
      var rest := Write(records[1..], eol);
      assert Write(records, eol) == line + [NEWLINE] + rest;
      SplitFirst(line, NEWLINE, rest);
      WriteLines(records[1..], eol);
    }
  }

  predicate SameTrimmed(a: seq<string>, b: seq<string>) {
    |a| == |b| && forall i :: 0 <= i < |a| ==> Trim(a[i]) == Trim(b[i])
  }

  lemma {:induction false} ColumnsAgree(h: seq<string>, h': seq<string>, v: seq<string>, v': seq<string>, n: nat)
    requires SameTrimmed(h, h') && SameTrimmed(v, v') && n <= |h|
    ensures Columns(h, v, n) == Columns(h', v', n)
  {
    hide Trim;
    if n > 0 {
      ColumnsAgree(h, h', v, v', n - 1);
    }
  }

  lemma CarriedTailIsTrimmed(fields: seq<string>, i: nat, n: nat, eol: string)
    requires |fields| > 0 && IsEol(eol)
    ensures IsPlain(CarriedTail(i, n, eol))
    ensures SameTrimmed(FirstOf(WithTail(fields, CarriedTail(i, n, eol)), MAX_COLS), FirstOf(fields, MAX_COLS))
  {
    var tail, last := CarriedTail(i, n, eol), fields[|fields| - 1];
    if tail == "" {
      assert last + tail == last;
    } else {
      assert tail == ['\r'];
      TrimEndDrops(last, '\r');
    }
    hide TrimStart, TrimEnd;
    assert Trim(last + tail) == Trim(last);
  }

  lemma QuoteIsNoSpace()
    ensures !IsSpace(QUOTE)
  {
  }

  lemma RowsCounted(csv: string)
    ensures var n := |Split(Trim(csv), NEWLINE)| - 1; |Rows(csv)| == if n < MAX_ROWS then n else MAX_ROWS
  {
  }

  lemma RowsAt(csv: string, i: nat)
    requires i < |Rows(csv)|
    ensures var lines := Split(Trim(csv), NEWLINE);
            i + 1 < |lines| && Rows(csv)[i] == RowOf(Fields(lines[0]), Fields(lines[i + 1]))
  {
  }

  lemma RowReadsBack(headers: seq<string>, fields: seq<string>, i: nat, n: nat, eol: string)
    requires |headers| > 0 && |fields| > 0 && IsEol(eol)
    ensures RowOf(Fields(JoinQuoted(headers) + CarriedTail(0, n, eol)),
                  Fields(JoinQuoted(fields) + CarriedTail(i, n, eol)))
            == RowOf(FirstOf(headers, MAX_COLS), FirstOf(fields, MAX_COLS))
  {
    JoinQuotedFacts(headers);
    JoinQuotedFacts(fields);
    CarriedTailIsTrimmed(headers, 0, n, eol);
    CarriedTailIsTrimmed(fields, i, n, eol);
    hide Scan, JoinQuoted, WithTail, Trim, Columns, CarriedTail, FirstOf, IsPlain;
    var h, v := FirstOf(WithTail(headers, CarriedTail(0, n, eol)), MAX_COLS),
      FirstOf(WithTail(fields, CarriedTail(i, n, eol)), MAX_COLS);
    ColumnsAgree(h, FirstOf(headers, MAX_COLS), v, FirstOf(fields, MAX_COLS), |h|);
  }

  /**
   Reading a written file, with LF or CRLF and any white space after its last line, gives back
   its first 10,000 rows, each with its first 200 columns.
   */
  lemma {:induction false} FileRoundTrip(headers: seq<string>, rows: seq<seq<string>>, eol: string, trailer: string)
    requires AreRecords([headers] + rows) && HoldNoNewline([headers] + rows) && IsEol(eol)
    requires forall i :: 0 <= i < |trailer| ==> IsSpace(trailer[i])
    ensures |Rows(Write([headers] + rows, eol) + trailer)| == if |rows| < MAX_ROWS then |rows| else MAX_ROWS
    ensures forall i :: 0 <= i < |rows| && i < MAX_ROWS ==>
              Rows(Write([headers] + rows, eol) + trailer)[i] ==
                RowOf(FirstOf(headers, MAX_COLS), FirstOf(rows[i], MAX_COLS))
  {
    var records := [headers] + rows;
    assert records[0] == headers && forall i :: 0 <= i < |rows| ==> records[i + 1] == rows[i];
    var text := Write(records, eol) + trailer;
    hide *;
    WriteEnds(records, eol);
    QuoteIsNoSpace();
    TrimKeeps(Write(records, eol), trailer);
    WriteLines(records, eol);
    RowsCounted(text);
    forall i | 0 <= i < |rows| && i < MAX_ROWS
      ensures Rows(text)[i] == RowOf(FirstOf(headers, MAX_COLS), FirstOf(rows[i], MAX_COLS))
    {
      RowsAt(text, i);
      RowReadsBack(headers, rows[i], i + 1, |records|, eol);
    }
  }

  // ---------------------------------------------------------------- line breaks inside fields

  function Newlines(s: string): nat {
    if s == "" then 0 else (if s[0] == NEWLINE then 1 else 0) + Newlines(s[1..])
  }

  function NewlinesIn(fields: seq<string>): nat {
    if fields == [] then 0 else Newlines(fields[0]) + NewlinesIn(fields[1..])
  }

  function NewlinesInAll(records: seq<seq<string>>): nat {
    if records == [] then 0 else NewlinesIn(records[0]) + NewlinesInAll(records[1..])
  }

  lemma {:induction false} NewlinesAppend(a: string, b: string)
    ensures Newlines(a + b) == Newlines(a) + Newlines(b)
  {
    if a == "" {
      assert a + b == b;
    } else {
      NewlinesAppend(a[1..], b);
      assert (a + b)[0] == a[0] && (a + b)[1..] == a[1..] + b;
    }
  }

  lemma {:induction false} SplitCounts(s: string)
    ensures |Split(s, NEWLINE)| == Newlines(s) + 1
  {
    if s != "" {
      SplitCounts(s[1..]);
    }
  }

  lemma {:induction false} QuotedNewlines(field: string)
    ensures Newlines(Doubled(field)) == Newlines(field)
    ensures Newlines(Quoted(field)) == Newlines(field)
  {
    if field != "" {
      QuotedNewlines(field[1..]);
      NewlinesAppend(if field[0] == QUOTE then [QUOTE, QUOTE] else [field[0]], Doubled(field[1..]));
      assert [QUOTE, QUOTE][1..] == [QUOTE];
    }
    NewlinesAppend([QUOTE], Doubled(field));
    NewlinesAppend([QUOTE] + Doubled(field), [QUOTE]);
  }

  lemma {:induction false} JoinNewlines(texts: seq<string>)
    requires |texts| > 0
    ensures Newlines(Join(texts, COMMA)) == NewlinesIn(texts)
  {
    if |texts| > 1 {
      JoinNewlines(texts[1..]);
      NewlinesAppend(texts[0], [COMMA]);
      NewlinesAppend(texts[0] + [COMMA], Join(texts[1..], COMMA));
    } else {
      assert NewlinesIn(texts[1..]) == 0;
    }
  }

  lemma {:induction false} QuotedAllNewlines(fields: seq<string>, texts: seq<string>)
    requires |fields| == |texts| && forall i :: 0 <= i < |texts| ==> texts[i] == Quoted(fields[i])
    ensures NewlinesIn(texts) == NewlinesIn(fields)
  {
    if fields != [] {
      QuotedNewlines(fields[0]);
      QuotedAllNewlines(fields[1..], texts[1..]);
    }
  }

  lemma {:induction false} JoinQuotedNewlines(fields: seq<string>)
    requires |fields| > 0
    ensures Newlines(JoinQuoted(fields)) == NewlinesIn(fields)
  {
    var texts := seq(|fields|, i requires 0 <= i < |fields| => Quoted(fields[i]));
    JoinNewlines(texts);
    QuotedAllNewlines(fields, texts);
  }

  lemma {:induction false} EolNewlines(eol: string)
    requires IsEol(eol)
    ensures Newlines(eol) == 1
  {
    assert "\r\n"[1..] == "\n" && "\n"[1..] == "";
  }

  lemma {:induction false} WriteNewlines(records: seq<seq<string>>, eol: string)
    requires |records| > 0 && AreRecords(records) && IsEol(eol)
    ensures Newlines(Write(records, eol)) == |records| - 1 + NewlinesInAll(records)
  {
    hide JoinQuoted, Newlines, NewlinesIn;
    JoinQuotedNewlines(records[0]);
    if |records| > 1 {
      WriteNewlines(records[1..], eol);
      EolNewlines(eol);
      NewlinesAppend(JoinQuoted(records[0]), eol);
      NewlinesAppend(JoinQuoted(records[0]) + eol, Write(records[1..], eol));
    } else {
      assert NewlinesInAll(records[1..]) == 0;
    }
  }

  lemma {:induction false} NoNewlineIff(s: string)
    ensures Newlines(s) == 0 <==> NEWLINE !in s
  {
    if s != "" {
      NoNewlineIff(s[1..]);
      assert s == [s[0]] + s[1..];
    }
  }

  lemma {:induction false} HoldsNoNewlineIff(fields: seq<string>)
    ensures NewlinesIn(fields) == 0 <==> HoldsNoNewline(fields)
  {
    if fields != [] {
      NoNewlineIff(fields[0]);
      HoldsNoNewlineIff(fields[1..]);
      assert forall j :: 0 < j < |fields| ==> fields[j] == fields[1..][j - 1];
    }
  }

  lemma {:induction false} HoldNoNewlineIff(records: seq<seq<string>>)
    ensures NewlinesInAll(records) == 0 <==> HoldNoNewline(records)
  {
    hide NewlinesIn, HoldsNoNewline;
    if records != [] {
      HoldsNoNewlineIff(records[0]);
      HoldNoNewlineIff(records[1..]);
      assert forall j :: 0 < j < |records| ==> records[j] == records[1..][j - 1];
    }
  }

  /**
   RFC 4180 lets a quoted field hold a line break; this reader cuts the file there. It returns as
   many rows as were written exactly when no field holds one.
   */
  lemma {:induction false} RowCountIff(headers: seq<string>, rows: seq<seq<string>>, eol: string, trailer: string)
    requires AreRecords([headers] + rows) && IsEol(eol) && |rows| < MAX_ROWS
    requires forall i :: 0 <= i < |trailer| ==> IsSpace(trailer[i])
    ensures |Rows(Write([headers] + rows, eol) + trailer)| == |rows| <==> HoldNoNewline([headers] + rows)
  {
    var records := [headers] + rows;
    assert |records| == |rows| + 1;
    hide *;
    WriteEnds(records, eol);
    QuoteIsNoSpace();
    TrimKeeps(Write(records, eol), trailer);
    RowsCounted(Write(records, eol) + trailer);
    SplitCounts(Write(records, eol));
    WriteNewlines(records, eol);
    HoldNoNewlineIff(records);
  }
}
