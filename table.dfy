/** The pipe-table reader shared by the log extractor and the transient-failure
    cleaner: a llama-bench table is a header line `| model | ... |`, a
    separator line, and one `|`-delimited line per measured test. */
module Table {
  import opened Basics

  /** A parsed row: column name to cell text. */
  type Row = map<string, string>

  /** `^\|\s*model\s*\|`, case-insensitive. */
  predicate HeaderLine(line: string) {
    |line| > 0 && line[0] == '|' &&
    var j := SpanEnd(line, 1, Space);
    j + 5 <= |line| && Lower(line[j..j + 5]) == "model" &&
    var k := SpanEnd(line, j + 5, Space);
    k < |line| && line[k] == '|'
  }

  /** `^\|\s*-+`. */
  predicate SepLine(line: string) {
    |line| > 0 && line[0] == '|' &&
    var j := SpanEnd(line, 1, Space);
    j < |line| && line[j] == '-'
  }

  /** A line that reaches the row branch once a header has been seen. */
  predicate RowLine(line: string) {
    StartsWith(line, "|") && !HeaderLine(line) && !SepLine(line) && !IsBlank(line)
  }

  /** `[c.strip() for c in line.strip().strip("|").split("|")]`. */
  function Cells(line: string): (r: seq<string>)
    ensures |r| >= 1
  {
    var pieces := Split(StripChar(Strip(line), '|'), '|');
    seq(|pieces|, i requires 0 <= i < |pieces| => Strip(pieces[i]))
  }

  /** Header cells, lowercased. */
  function HeaderNames(line: string): (r: seq<string>)
    ensures |r| == |Cells(line)|
    ensures forall i :: 0 <= i < |r| ==> r[i] == Lower(Cells(line)[i])
  {
    var cells := Cells(line);
    seq(|cells|, i requires 0 <= i < |cells| => Lower(cells[i]))
  }

  /** `for idx, name in enumerate(names[..n]): col_idx[name] = idx`. */
  function Assign(colIdx: map<string, nat>, names: seq<string>, n: nat): (r: map<string, nat>)
    requires n <= |names|
    ensures forall k :: k in r <==> k in colIdx || k in names[..n]
    ensures forall k :: k in colIdx && k !in names[..n] ==> r[k] == colIdx[k]
  {
    if n == 0 then colIdx
    else
      assert names[..n] == names[..n - 1] + [names[n - 1]];
      Assign(colIdx, names, n - 1)[names[n - 1] := n - 1]
  }

  /** Each header name ends up at the index of its last occurrence. */
  lemma {:induction false} AssignLast(colIdx: map<string, nat>, names: seq<string>, n: nat, i: nat)
    requires i < n <= |names|
    ensures var r := Assign(colIdx, names, n);
      && r[names[i]] < n && names[r[names[i]]] == names[i]
      && forall j :: r[names[i]] < j < n ==> names[j] != names[i]
  {
    assert names[..n] == names[..n - 1] + [names[n - 1]];
    if names[n - 1] != names[i] {
      AssignLast(colIdx, names, n - 1, i);
    }
  }

  /** `{name: parts[idx] for name, idx in col_idx.items()}`, or None where a
      stale index is out of range (Python's IndexError). */
  function MakeRow(colIdx: map<string, nat>, parts: seq<string>): (r: Option<Row>)
    ensures r.Some? <==> forall k :: k in colIdx ==> colIdx[k] < |parts|
    ensures r.Some? ==> r.value.Keys == colIdx.Keys
    ensures r.Some? ==> forall k :: k in colIdx ==> r.value[k] == parts[colIdx[k]]
  {
    if forall k :: k in colIdx ==> colIdx[k] < |parts| then
      Some(map k | k in colIdx :: parts[colIdx[k]])
    else None
  }

  /** The parser's state between lines. `headerLen` is None until a header
      has been seen; `colIdx` is never reset by later headers. */
  datatype TableState = TableState(headerLen: Option<nat>, colIdx: map<string, nat>, rows: seq<Row>)

  const Init := TableState(None, map[], [])

  /** One line of the loop; None stands for the IndexError it may raise. */
  function Step(st: TableState, line: string): (r: Option<TableState>)
    ensures r.Some? ==> st.rows <= r.value.rows && |r.value.rows| <= |st.rows| + 1
    ensures r.Some? && |r.value.rows| > |st.rows| ==>
      && st.headerLen.Some? && RowLine(line) && |Cells(line)| >= st.headerLen.value
      && var row := r.value.rows[|st.rows|];
         && row.Keys == st.colIdx.Keys
         && forall k :: k in row ==> k in st.colIdx && st.colIdx[k] < |Cells(line)| && row[k] == Cells(line)[st.colIdx[k]]
    ensures r.None? ==> st.headerLen.Some? && RowLine(line)
  {
    if HeaderLine(line) then
      var names := HeaderNames(line);
      Some(TableState(Some(|names|), Assign(st.colIdx, names, |names|), st.rows))
    else if st.headerLen.Some? && (SepLine(line) || IsBlank(line)) then Some(st)
    else if st.headerLen.Some? && StartsWith(line, "|") then
      var parts := Cells(line);
      if |parts| < st.headerLen.value then Some(st)
      else match MakeRow(st.colIdx, parts)
        case None => None
        case Some(row) => Some(st.(rows := st.rows + [row]))
    else Some(st)
  }

  /** The loop over all lines, from the front. */
  function Run(st: TableState, lines: seq<string>): Option<TableState>
    decreases |lines|
  {
    if lines == [] then Some(st)
    else match Step(st, lines[0])
      case None => None
      case Some(next) => Run(next, lines[1..])
  }

  datatype Parsed = Rows(rows: seq<Row>) | IndexError

  /** What `parse_table(text)` returns, or its IndexError. */
  function TableOf(text: string): Parsed {
    match Run(Init, SplitLines(text))
    case None => IndexError
    case Some(st) => Rows(st.rows)
  }

  /** parse_table, statement by statement, including the early `break`;
      the proof shows that the `break` never changes the outcome. */
  method ParseTable(text: string) returns (r: Parsed)
    ensures r == TableOf(text)
  {
    var lines := SplitLines(text);
    var rows: seq<Row> := [];
    var header: Option<seq<string>> := None;
    var colIdx: map<string, nat> := map[];
    var i := 0;
    while i < |lines|
      invariant i <= |lines|
      invariant Run(Init, lines) == Run(TableState(HeaderLen(header), colIdx, rows), lines[i..])
    {
      var line := lines[i];
      assert lines[i..][0] == line && lines[i..][1..] == lines[i + 1..];
      if HeaderLine(line) {
        var names := HeaderNames(line);
        header := Some(names);
        colIdx := IndexColumns(colIdx, names);
        i := i + 1;
        continue;
      }
      if header.Some? && (SepLine(line) || IsBlank(line)) {
        i := i + 1;
        continue;
      }
      if header.Some? && StartsWith(line, "|") {
        var parts := Cells(line);
        if |parts| < |header.value| {
          i := i + 1;
          continue;
        }
        var row := MakeRow(colIdx, parts);
        if row.None? {
          return IndexError;
        }
        rows := rows + [row.value];
      }
      if header.Some? && IsBlank(line) && rows != [] {
        break;
      }
      i := i + 1;
    }
    return Rows(rows);
  }

  /** The header's `enumerate` loop, updating `col_idx` in place. */
  method IndexColumns(colIdx0: map<string, nat>, names: seq<string>) returns (colIdx: map<string, nat>)
    ensures colIdx == Assign(colIdx0, names, |names|)
  {
    colIdx := colIdx0;
    var idx := 0;
    while idx < |names|
      invariant idx <= |names|
      invariant colIdx == Assign(colIdx0, names, idx)
    {
      colIdx := colIdx[names[idx] := idx];
      idx := idx + 1;
    }
  }

  function HeaderLen(header: Option<seq<string>>): Option<nat> {
    match header
    case None => None
    case Some(h) => Some(|h|)
  }

  // ---------------------------------------------------------------------------
  // Properties

  /** A header line is never blank, so once a header is seen every blank line
      takes the `continue` of the separator/blank test and the closing
      `break` is unreachable. */
  lemma BlankLineSkipped(st: TableState, line: string)
    requires st.headerLen.Some? && IsBlank(line)
    ensures Step(st, line) == Some(st)
  {
    if HeaderLine(line) {
      HeaderNotBlank(line);
    }
  }

  lemma HeaderNotBlank(line: string)
    requires HeaderLine(line)
    ensures !IsBlank(line)
  {
    NonSpaceNotBlank(line, 0);
  }

  lemma NonSpaceNotBlank(s: string, i: nat)
    requires i < |s| && !IsSpace(s[i])
    ensures !IsBlank(s)
  {
    var l := LStrip(s);
    assert i >= |s| - |l|;
    assert l[i - (|s| - |l|)] == s[i];
  }

  /** Without a header, no line produces a row. */
  lemma {:induction false} NoHeaderNoRows(st: TableState, lines: seq<string>)
    requires st.headerLen.None?
    requires forall i :: 0 <= i < |lines| ==> !HeaderLine(lines[i])
    ensures Run(st, lines) == Some(st)
    decreases |lines|
  {
    if lines != [] {
      NoHeaderNoRows(st, lines[1..]);
    }
  }

  /** Running over two pieces of text is running over the first, then the second. */
  lemma {:induction false} RunAppend(st: TableState, a: seq<string>, b: seq<string>)
    ensures Run(st, a + b) == match Run(st, a) case None => None case Some(mid) => Run(mid, b)
    decreases |a|
  {
    if a == [] {
      assert a + b == b;
    } else {
      assert (a + b)[0] == a[0] && (a + b)[1..] == a[1..] + b;
      match Step(st, a[0])
      case None =>
      case Some(next) => RunAppend(next, a[1..], b);
    }
  }

  /** Lines before the first header never produce rows: dropping them
      changes nothing. */
  lemma PreambleIgnored(pre: seq<string>, rest: seq<string>)
    requires forall i :: 0 <= i < |pre| ==> !HeaderLine(pre[i])
    ensures Run(Init, pre + rest) == Run(Init, rest)
  {
    RunAppend(Init, pre, rest);
    NoHeaderNoRows(Init, pre);
  }

  /** Text without any header line yields no rows. */
  lemma NoHeaderEmptyTable(text: string)
    requires forall i :: 0 <= i < |SplitLines(text)| ==> !HeaderLine(SplitLines(text)[i])
    ensures TableOf(text) == Rows([])
  {
    NoHeaderNoRows(Init, SplitLines(text));
  }

  function CountRowLines(lines: seq<string>): (n: nat)
    ensures n <= |lines|
  {
    if lines == [] then 0 else (if RowLine(lines[0]) then 1 else 0) + CountRowLines(lines[1..])
  }

  /** Only row lines add rows: separators, blanks, headers and other text
      never do, and the loop reads every line to the end. */
  lemma {:induction false} RowsFromRowLines(st: TableState, lines: seq<string>)
    ensures Run(st, lines).Some? ==>
      st.rows <= Run(st, lines).value.rows &&
      |Run(st, lines).value.rows| <= |st.rows| + CountRowLines(lines)
    decreases |lines|
  {
    if lines != [] {
      match Step(st, lines[0])
      case None =>
      case Some(next) => RowsFromRowLines(next, lines[1..]);
    }
  }

  /** The stale column index: `col_idx` is never reset, so after a wide
      header and a narrower one whose names leave out the wide header's last
      column, that column keeps its old index and a row as wide as the narrow
      header (which passes the length guard) raises IndexError. */
  lemma StaleIndex(colIdx: map<string, nat>, w: seq<string>, n: seq<string>, parts: seq<string>)
    requires |parts| == |n| < |w|
    requires w[|w| - 1] !in n
    ensures MakeRow(Assign(Assign(colIdx, w, |w|), n, |n|), parts) == None
  {
    AssignLast(colIdx, w, |w|, |w| - 1);
    assert n[..|n|] == n;
    var c := Assign(Assign(colIdx, w, |w|), n, |n|);
    assert c[w[|w| - 1]] == |w| - 1;
  }
}
