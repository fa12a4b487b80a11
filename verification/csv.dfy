/** The sheet payload decoder (`parseCSV`): a naive comma-separated reader
    with no quoting, no escaped separators and no embedded commas. The first
    line names the columns; every later line that is not blank becomes one
    entry mapping column names to the values in the same positions. */
module Csv {
  import opened JsText

  /** One decoded row: the plain object the header reduce builds, as a map
      from the own keys it was given to their values. */
  type Entry = map<string, string>

  /** How the decoder cleans every header token and every value: `trim()`
      followed by `replace(/\r$/, '')`. */
  function CleanCell(s: string): (r: string)
    ensures r == Trim(s)
    ensures NoEdgeWhitespace(r)
  {
    StripAfterTrimIsIdentity(s);
    StripTrailingCR(Trim(s))
  }

  /** A value of a cleaned cell has no comma when the raw cell had none. */
  lemma CleanCellKeepsNoComma(s: string)
    requires ',' !in s
    ensures ',' !in CleanCell(s)
  {
    TrimKeepsCharacters(s, ',');
  }

  lemma CellHasNoComma(values: seq<string>, j: nat)
    requires forall k :: 0 <= k < |values| ==> ',' !in values[k]
    ensures ',' !in Cell(values, j)
  {
    if j < |values| {
      CleanCellKeepsNoComma(values[j]);
    }
  }

  /** The header tokens of the first line, cleaned. */
  function Headers(headerLine: string): (headers: seq<string>)
    ensures |headers| == |Split(headerLine, ',')|
    ensures forall k :: 0 <= k < |headers| ==> headers[k] == Trim(Split(headerLine, ',')[k])
  {
    var tokens := Split(headerLine, ',');
    seq(|tokens|, k requires 0 <= k < |tokens| => CleanCell(tokens[k]))
  }

  /** `values[index]?.trim().replace(/\r$/, '') || ''`: a column past the end
      of the row reads as the empty string. */
  function Cell(values: seq<string>, j: nat): (cell: string)
    ensures j < |values| ==> cell == Trim(values[j])
    ensures j >= |values| ==> cell == ""
  {
    if j < |values| then CleanCell(values[j]) else ""
  }

  /** The last of the first `n` columns whose header is `key`, or -1 when
      none is. */
  function LastColumn(headers: seq<string>, key: string, n: nat): (c: int)
    requires n <= |headers|
    ensures -1 <= c < n
    ensures c >= 0 ==> headers[c] == key
    ensures forall j :: c < j < n ==> headers[j] != key
  {
    if n == 0 then -1
    else if headers[n - 1] == key then n - 1
    else LastColumn(headers, key, n - 1)
  }

  /** The reduce over the first `n` headers: each non-empty header is
      assigned the value in its column, in column order, so the keys are the
      non-empty headers and a repeated header ends up with the value of its
      last column. */
  function Reduce(headers: seq<string>, values: seq<string>, n: nat): (obj: Entry)
    requires n <= |headers|
    ensures forall key :: key in obj <==> key != "" && LastColumn(headers, key, n) >= 0
    ensures forall key :: key in obj ==> obj[key] == Cell(values, LastColumn(headers, key, n))
  {
    if n == 0 then map[]
    else
      var obj := Reduce(headers, values, n - 1);
      var key := headers[n - 1];
      if key != "" then obj[key := Cell(values, n - 1)] else obj
  }

  /** The entry for one data line: its keys are headers, and no value has
      whitespace at either end or a comma anywhere. */
  function ParseLine(headers: seq<string>, line: string): (entry: Entry)
    ensures forall key :: key in entry ==> key != "" && key in headers
    ensures forall key :: key in entry ==> NoEdgeWhitespace(entry[key]) && ',' !in entry[key]
  {
    ReduceHasNoComma(headers, Split(line, ','), |headers|);
    Reduce(headers, Split(line, ','), |headers|)
  }

  /** Every non-empty header is a key of the entry and nothing else is. */
  lemma ParseLineKeys(headers: seq<string>, line: string, key: string)
    ensures key in ParseLine(headers, line) <==> key != "" && key in headers
  {
    var c := LastColumn(headers, key, |headers|);
    if key in headers {
      var j :| 0 <= j < |headers| && headers[j] == key;
      assert c >= j;
    }
  }

  /** A header's value is the cleaned cell in the same column, or the empty
      string when the line is too short; when the header repeats, the value
      of its last column wins. */
  lemma ParseLineValue(headers: seq<string>, line: string, j: nat)
    requires j < |headers| && headers[j] != ""
    requires forall j' :: j < j' < |headers| ==> headers[j'] != headers[j]
    ensures headers[j] in ParseLine(headers, line)
    ensures var values := Split(line, ',');
            ParseLine(headers, line)[headers[j]] == if j < |values| then Trim(values[j]) else ""
  {
    assert LastColumn(headers, headers[j], |headers|) == j;
  }

  /** The reduce only looks at the cells of its own columns. */
  lemma {:induction false} ReduceReadsOwnColumns(headers: seq<string>, v1: seq<string>, v2: seq<string>, n: nat)
    requires n <= |headers|
    requires forall j :: 0 <= j < n ==> Cell(v1, j) == Cell(v2, j)
    ensures Reduce(headers, v1, n) == Reduce(headers, v2, n)
  {
    if n > 0 {
      ReduceReadsOwnColumns(headers, v1, v2, n - 1);
    }
  }

  /** Columns beyond the last header are ignored: appending more
      comma-separated cells to a line that already fills every header
      column does not change its entry. */
  lemma ExtraColumnsIgnored(headers: seq<string>, line: string, extra: string)
    requires |Split(line, ',')| >= |headers|
    ensures ParseLine(headers, line + [','] + extra) == ParseLine(headers, line)
  {
    var values := Split(line, ',');
    SplitAppend(line, extra, ',');
    var longer := Split(line + [','] + extra, ',');
    assert forall j :: 0 <= j < |headers| ==> Cell(longer, j) == Cell(values, j) by {
      forall j | 0 <= j < |headers| ensures Cell(longer, j) == Cell(values, j) {
        assert longer[j] == values[j];
      }
    }
    ReduceReadsOwnColumns(headers, longer, values, |headers|);
  }

  /** A line the decoder skips: nothing but whitespace. */
  predicate IsBlank(line: string) {
    AllWhitespace(line)
  }

  /** `IsBlank` is the decoder's test `!line.trim()`. */
  lemma IsBlankIsEmptyTrim(line: string)
    ensures IsBlank(line) <==> Trim(line) == ""
  {
    TrimCharacterised(line);
  }

  function CountNonBlank(rows: seq<string>): (n: nat)
    ensures n <= |rows|
  {
    if rows == [] then 0
    else (if IsBlank(rows[0]) then 0 else 1) + CountNonBlank(rows[1..])
  }

  lemma CountNonBlankStep(rows: seq<string>, i: nat)
    requires 1 <= i <= |rows|
    ensures CountNonBlank(rows[..i])
         == (if IsBlank(rows[0]) then 0 else 1) + CountNonBlank(rows[1..][..i - 1])
  {
    assert rows[..i][1..] == rows[1..][..i - 1];
  }

  /** The data lines with the blank ones dropped, in order. */
  function NonBlankLines(rows: seq<string>): (kept: seq<string>)
    ensures |kept| == CountNonBlank(rows)
    ensures forall k :: 0 <= k < |kept| ==> !IsBlank(kept[k])
  {
    if rows == [] then []
    else (if IsBlank(rows[0]) then [] else [rows[0]]) + NonBlankLines(rows[1..])
  }

  /** The non-blank line at position `i` lands at the number of non-blank
      lines before it. */
  lemma {:induction false} NonBlankLinePlacement(rows: seq<string>, i: nat)
    requires i < |rows| && !IsBlank(rows[i])
    ensures CountNonBlank(rows[..i]) < |NonBlankLines(rows)|
    ensures NonBlankLines(rows)[CountNonBlank(rows[..i])] == rows[i]
  {
    if i == 0 {
      assert rows[..0] == [];
    } else {
      NonBlankLinePlacement(rows[1..], i - 1);
      CountNonBlankStep(rows, i);
    }
  }

  /** The converse of `NonBlankLinePlacement`: every entry position comes
      from a non-blank row, the one with exactly that many non-blank rows
      before it. */
  lemma {:induction false} DataLineOf(rows: seq<string>, k: nat) returns (i: nat)
    requires k < CountNonBlank(rows)
    ensures i < |rows| && !IsBlank(rows[i]) && CountNonBlank(rows[..i]) == k
  {
    if !IsBlank(rows[0]) && k == 0 {
      i := 0;
    } else {
      var skip := if IsBlank(rows[0]) then 0 else 1;
      var i' := DataLineOf(rows[1..], k - skip);
      i := i' + 1;
      CountNonBlankStep(rows, i);
    }
  }

  /** The payload trimmed and split into lines on line feeds only. */
  function Lines(csv: string): (lines: seq<string>)
    ensures |lines| >= 1
    ensures forall k :: 0 <= k < |lines| ==> '\n' !in lines[k]
    ensures Join(lines, '\n') == Trim(csv)
  {
    Split(Trim(csv), '\n')
  }

  /** The body of `parseCSV` after the split: nothing when there are fewer
      than two lines; otherwise one entry per non-blank data line, in line
      order, each decoded against the header line. (The source maps blank
      lines to `null` and then filters the nulls out; dropping them first and
      then decoding gives the same sequence.) */
  function ParseLines(lines: seq<string>): (entries: seq<Entry>)
    requires |lines| >= 1
    ensures |lines| < 2 ==> entries == []
    ensures |lines| >= 2 ==> |entries| == CountNonBlank(lines[1..])
    ensures forall i :: 1 <= i < |lines| && !IsBlank(lines[i]) ==>
              CountNonBlank(lines[1..i]) < |entries|
              && entries[CountNonBlank(lines[1..i])] == ParseLine(Headers(lines[0]), lines[i])
  {
    if |lines| < 2 then []
    else
      var headers := Headers(lines[0]);
      var rows := lines[1..];
      var kept := NonBlankLines(rows);
      assert forall i :: 1 <= i < |lines| && !IsBlank(lines[i]) ==>
          CountNonBlank(lines[1..i]) < |kept| && kept[CountNonBlank(lines[1..i])] == lines[i] by {
        forall i | 1 <= i < |lines| && !IsBlank(lines[i])
          ensures CountNonBlank(lines[1..i]) < |kept| && kept[CountNonBlank(lines[1..i])] == lines[i]
        {
          assert rows[..i - 1] == lines[1..i] && rows[i - 1] == lines[i];
          NonBlankLinePlacement(rows, i - 1);
        }
      }
      seq(|kept|, k requires 0 <= k < |kept| => ParseLine(headers, kept[k]))
  }

  /** `entry` is the decoding, against the header line, of one of the
      non-blank lines after it. */
  ghost predicate FromDataLine(lines: seq<string>, entry: Entry)
    requires |lines| >= 1
  {
    exists i :: 1 <= i < |lines| && !IsBlank(lines[i]) && entry == ParseLine(Headers(lines[0]), lines[i])
  }

  /** `parseCSV`: nothing for a payload of fewer than two lines; otherwise
      one entry per non-blank data line, each entry the decoding of a
      non-blank data line against the header line, and every such line
      decoded. */
  function ParseCSV(csv: string): (entries: seq<Entry>)
    ensures |Lines(csv)| < 2 ==> entries == []
    ensures |Lines(csv)| >= 2 ==> |entries| == CountNonBlank(Lines(csv)[1..])
    ensures forall k :: 0 <= k < |entries| ==> FromDataLine(Lines(csv), entries[k])
    ensures forall i :: 1 <= i < |Lines(csv)| && !IsBlank(Lines(csv)[i]) ==>
              ParseLine(Headers(Lines(csv)[0]), Lines(csv)[i]) in entries
  {
    EntriesFromDataLines(Lines(csv));
    ParseLines(Lines(csv))
  }

  /** Every entry of a decoded payload comes from a non-blank data line. */
  lemma EntriesFromDataLines(lines: seq<string>)
    requires |lines| >= 1
    ensures forall k :: 0 <= k < |ParseLines(lines)| ==> FromDataLine(lines, ParseLines(lines)[k])
  {
    forall k | 0 <= k < |ParseLines(lines)|
      ensures FromDataLine(lines, ParseLines(lines)[k])
    {
      var i := EntrySource(lines, k);
    }
  }

  /** No decoded value contains a comma: commas only ever separate. */
  lemma ReduceHasNoComma(headers: seq<string>, values: seq<string>, n: nat)
    requires n <= |headers|
    requires forall j :: 0 <= j < |values| ==> ',' !in values[j]
    ensures forall key :: key in Reduce(headers, values, n) ==> ',' !in Reduce(headers, values, n)[key]
  {
    forall key | key in Reduce(headers, values, n)
      ensures ',' !in Reduce(headers, values, n)[key]
    {
      CellHasNoComma(values, LastColumn(headers, key, n));
    }
  }


  /** Every entry is the decoding of a non-blank data line. */
  lemma EntrySource(lines: seq<string>, k: nat) returns (i: nat)
    requires |lines| >= 1 && k < |ParseLines(lines)|
    ensures 1 <= i < |lines| && !IsBlank(lines[i])
    ensures ParseLines(lines)[k] == ParseLine(Headers(lines[0]), lines[i])
  {
    var rows := lines[1..];
    var r := DataLineOf(rows, k);
    NonBlankLinePlacement(rows, r);
    i := r + 1;
  }

  /** The kept lines are lines of the input. */
  lemma {:induction false} NonBlankLinesFromRows(rows: seq<string>, k: nat)
    requires k < |NonBlankLines(rows)|
    ensures NonBlankLines(rows)[k] in rows
  {
    if IsBlank(rows[0]) {
      NonBlankLinesFromRows(rows[1..], k);
    } else if k > 0 {
      NonBlankLinesFromRows(rows[1..], k - 1);
    }
  }

  lemma ParsedValuesHaveNoComma(csv: string)
    ensures forall k, key :: 0 <= k < |ParseCSV(csv)| && key in ParseCSV(csv)[k] ==>
              ',' !in ParseCSV(csv)[k][key]
  {
    var lines := Lines(csv);
    forall k | 0 <= k < |ParseLines(lines)|
      ensures forall key :: key in ParseLines(lines)[k] ==> ',' !in ParseLines(lines)[k][key]
    {
      var i := EntrySource(lines, k);
    }
  }
}
