/** Two worked decodings of small sheet payloads, checked end to end. */
module Scenarios {
  import opened JsText
  import opened Csv
  import opened Employees

  /** A string with no whitespace at either end is its own cleaned cell. */
  lemma CleanCellOfTrimmed(s: string)
    requires NoEdgeWhitespace(s)
    ensures CleanCell(s) == s
  {
    TrimOfTrimmed(s);
  }

  /** Two clean, comma-free cells joined by a comma split back into them. */
  lemma SplitPair(a: string, b: string)
    requires ',' !in a && ',' !in b
    ensures Split(a + [','] + b, ',') == [a, b]
  {
    assert [a, b][1..] == [b];
    assert Join([a, b], ',') == a + [','] + b;
    SplitJoin([a, b], ',');
  }

  /** A header line of two clean, comma-free names. */
  lemma HeadersPair(a: string, b: string)
    requires ',' !in a && ',' !in b && NoEdgeWhitespace(a) && NoEdgeWhitespace(b)
    ensures Headers(a + [','] + b) == [a, b]
  {
    SplitPair(a, b);
    CleanCellOfTrimmed(a);
    CleanCellOfTrimmed(b);
  }

  lemma HeadersIdName()
    ensures Headers("id,name") == ["id", "name"]
  {
    assert "id" + [','] + "name" == "id,name";
    HeadersPair("id", "name");
  }

  /** A header line of one clean, comma-free name. */
  lemma HeadersSingle(a: string)
    requires ',' !in a && NoEdgeWhitespace(a)
    ensures Headers(a) == [a]
  {
    SplitNoSeparator(a, ',');
    CleanCellOfTrimmed(a);
  }

  lemma HeadersName()
    ensures Headers("name") == ["name"]
  {
    HeadersSingle("name");
  }

  /** The reduce over the headers `id,name` reads the first two cells. */
  lemma ReduceIdName(values: seq<string>)
    ensures Reduce(["id", "name"], values, 2) == map["id" := Cell(values, 0), "name" := Cell(values, 1)]
  {
    var headers := ["id", "name"];
    assert headers[0] == "id" && headers[1] == "name";
    assert Reduce(headers, values, 1) == map[]["id" := Cell(values, 0)];
  }

  lemma PairReduce(id: string, name: string, values: seq<string>)
    requires NoEdgeWhitespace(id) && NoEdgeWhitespace(name) && values == [id, name]
    ensures Reduce(["id", "name"], values, 2) == map["id" := id, "name" := name]
  {
    ReduceIdName(values);
    CleanCellOfTrimmed(id);
    CleanCellOfTrimmed(name);
  }

  /** A data line of two clean, comma-free cells under the headers `id,name`. */
  lemma TwoCellLine(id: string, name: string)
    requires NoEdgeWhitespace(id) && NoEdgeWhitespace(name)
    requires ',' !in id && ',' !in name
    ensures ParseLine(["id", "name"], id + [','] + name) == map["id" := id, "name" := name]
  {
    SplitPair(id, name);
    PairReduce(id, name, Split(id + [','] + name, ','));
  }

  /** A data line of one clean cell under the single header `name`. */
  lemma OneCellLine(name: string)
    requires name != [] && NoEdgeWhitespace(name) && ',' !in name
    ensures ParseLine(["name"], name) == map["name" := name]
  {
    SplitNoSeparator(name, ',');
    var values := Split(name, ',');
    CleanCellOfTrimmed(name);
    assert Reduce(["name"], values, 1) == map["name" := name];
  }

  /** Two data lines that are not blank both become entries, in order. */
  lemma TwoDataLines(lines: seq<string>)
    requires |lines| == 3 && lines[1] != [] && lines[2] != []
    requires !IsJsWhitespace(lines[1][0]) && !IsJsWhitespace(lines[2][0])
    ensures ParseLines(lines)
         == [ParseLine(Headers(lines[0]), lines[1]), ParseLine(Headers(lines[0]), lines[2])]
  {
    assert !IsBlank(lines[1]) && !IsBlank(lines[2]);
    assert lines[1..][1..][1..] == [];
    assert CountNonBlank(lines[1..]) == 2;
    assert lines[1..1] == [];
    assert lines[1..2][1..] == [];
    assert CountNonBlank(lines[1..2]) == 1;
    var entries := ParseLines(lines);
    assert entries[0] == ParseLine(Headers(lines[0]), lines[1]);
    assert entries[1] == ParseLine(Headers(lines[0]), lines[2]);
  }

  /** A three-line payload with no edge whitespace splits into its lines. */
  lemma ThreeLines(a: string, b: string, c: string)
    requires '\n' !in a && '\n' !in b && '\n' !in c
    requires NoEdgeWhitespace(a + ['\n'] + b + ['\n'] + c)
    ensures Lines(a + ['\n'] + b + ['\n'] + c) == [a, b, c]
  {
    TrimOfTrimmed(a + ['\n'] + b + ['\n'] + c);
    SplitJoin([a, b, c], '\n');
    assert [a, b, c][1..] == [b, c] && [b, c][1..] == [c];
    assert Join([c], '\n') == c;
    assert Join([b, c], '\n') == b + ['\n'] + c;
    assert Join([a, b, c], '\n') == a + ['\n'] + (b + ['\n'] + c);
    assert a + ['\n'] + (b + ['\n'] + c) == a + ['\n'] + b + ['\n'] + c;
  }

  /** A three-line payload with two non-blank data lines decodes to their
      two entries. */
  lemma ThreeLinePayload(a: string, b: string, c: string)
    requires '\n' !in a && '\n' !in b && '\n' !in c
    requires NoEdgeWhitespace(a + ['\n'] + b + ['\n'] + c)
    requires b != [] && c != [] && !IsJsWhitespace(b[0]) && !IsJsWhitespace(c[0])
    ensures ParseCSV(a + ['\n'] + b + ['\n'] + c) == [ParseLine(Headers(a), b), ParseLine(Headers(a), c)]
  {
    ThreeLines(a, b, c);
    TwoDataLines([a, b, c]);
  }

  lemma LineOneAnn()
    ensures ParseLine(["id", "name"], "1,Ann") == map["id" := "1", "name" := "Ann"]
  {
    TwoCellLine("1", "Ann");
    assert "1" + [','] + "Ann" == "1,Ann";
  }

  lemma LineTwoBob()
    ensures ParseLine(["id", "name"], "2,Bob") == map["id" := "2", "name" := "Bob"]
  {
    TwoCellLine("2", "Bob");
    assert "2" + [','] + "Bob" == "2,Bob";
  }

  /** `"id,name\n1,Ann\n2,Bob"` decodes to two rows carrying their own ids. */
  lemma IdAndNameRows()
    ensures ParseCSV("id,name\n1,Ann\n2,Bob")
         == [map["id" := "1", "name" := "Ann"], map["id" := "2", "name" := "Bob"]]
  {
    assert "id,name" + ['\n'] + "1,Ann" + ['\n'] + "2,Bob" == "id,name\n1,Ann\n2,Bob";
    ThreeLinePayload("id,name", "1,Ann", "2,Bob");
    HeadersIdName();
    LineOneAnn();
    LineTwoBob();
  }

  /** A payload that decodes to two rows normalises them at positions 0 and 1. */
  lemma DecodeTwoRows(csv: string, clock: nat -> nat, e0: Entry, e1: Entry)
    requires ParseCSV(csv) == [e0, e1]
    ensures DecodeSheet(csv, clock) == [Normalise(e0, 0, clock(0)), Normalise(e1, 1, clock(1))]
  {
    assert DecodeSheet(csv, clock) == NormaliseAll([e0, e1], clock);
    NormaliseTwo(e0, e1, clock);
  }

  lemma NormaliseTwo(e0: Entry, e1: Entry, clock: nat -> nat)
    ensures NormaliseAll([e0, e1], clock) == [Normalise(e0, 0, clock(0)), Normalise(e1, 1, clock(1))]
  {
    var roster := NormaliseAll([e0, e1], clock);
    assert roster[0] == Normalise(e0, 0, clock(0));
    assert roster[1] == Normalise(e1, 1, clock(1));
  }

  /** A row with a non-empty id and a name keeps the id; every other field is empty. */
  lemma NormaliseIdAndName(id: string, name: string, index: nat, stamp: nat)
    requires id != ""
    ensures Normalise(map["id" := id, "name" := name], index, stamp)
         == Employee(id, Card(name, "", "", "", "", "", "", ""))
  {
    var entry := map["id" := id, "name" := name];
    assert Supplied(entry, "id") == id && Supplied(entry, "name") == name;
    assert forall key :: key != "id" && key != "name" ==> Supplied(entry, key) == "";
  }

  /** A row with only a name gets `name-undefined-index`. */
  lemma NameOnlyId(name: string, index: nat, stamp: nat)
    requires name != ""
    ensures SynthesisedId(map["name" := name], index, stamp) == name + "-undefined-" + Decimal(index)
  {
    var entry := map["name" := name];
    assert Truthy(entry, "name");
    assert Interpolated(entry, "name") == name && Interpolated(entry, "email") == "undefined";
    assert name + ['-'] + "undefined" + (['-'] + Decimal(index)) == name + "-undefined-" + Decimal(index);
  }

  lemma NormaliseNameOnly(name: string, index: nat, stamp: nat)
    requires name != ""
    ensures Normalise(map["name" := name], index, stamp)
         == Employee(name + "-undefined-" + Decimal(index), Card(name, "", "", "", "", "", "", ""))
  {
    var entry := map["name" := name];
    assert Supplied(entry, "id") == "";
    assert Overlay(entry).card == Card(name, "", "", "", "", "", "", "");
    NameOnlyId(name, index, stamp);
  }

  /** ... and normalises to two records with those ids and names and every
      other field empty, whatever the clock reads. */
  lemma IdAndNameColumns(clock: nat -> nat)
    ensures DecodeSheet("id,name\n1,Ann\n2,Bob", clock)
         == [Employee("1", Card("Ann", "", "", "", "", "", "", "")),
             Employee("2", Card("Bob", "", "", "", "", "", "", ""))]
  {
    IdAndNameRows();
    DecodeTwoRows("id,name\n1,Ann\n2,Bob", clock, map["id" := "1", "name" := "Ann"], map["id" := "2", "name" := "Bob"]);
    NormaliseIdAndName("1", "Ann", 0, clock(0));
    NormaliseIdAndName("2", "Bob", 1, clock(1));
  }

  lemma NamePayload()
    ensures ParseCSV("name\nAnn\nBob") == [ParseLine(Headers("name"), "Ann"), ParseLine(Headers("name"), "Bob")]
  {
    assert "name" + ['\n'] + "Ann" + ['\n'] + "Bob" == "name\nAnn\nBob";
    ThreeLinePayload("name", "Ann", "Bob");
  }

  lemma NameLines()
    ensures [ParseLine(Headers("name"), "Ann"), ParseLine(Headers("name"), "Bob")]
         == [map["name" := "Ann"], map["name" := "Bob"]]
  {
    HeadersName();
    OneCellLines("Ann", "Bob");
  }

  lemma OneCellLines(a: string, b: string)
    requires a != [] && b != [] && NoEdgeWhitespace(a) && NoEdgeWhitespace(b)
    requires ',' !in a && ',' !in b
    ensures [ParseLine(["name"], a), ParseLine(["name"], b)] == [map["name" := a], map["name" := b]]
  {
    OneCellLine(a);
    OneCellLine(b);
  }

  /** `"name\nAnn\nBob"` has no id column. */
  lemma NameRows()
    ensures ParseCSV("name\nAnn\nBob") == [map["name" := "Ann"], map["name" := "Bob"]]
  {
    NamePayload();
    NameLines();
  }

  lemma AnnId()
    ensures "Ann" + "-undefined-" + Decimal(0) == "Ann-undefined-0"
  {
    assert Decimal(0) == "0";
  }

  lemma BobId()
    ensures "Bob" + "-undefined-" + Decimal(1) == "Bob-undefined-1"
  {
    assert Decimal(1) == "1";
  }

  /** Each row of `"name\nAnn\nBob"` gets `name-email-index`, the missing
      email rendered as "undefined", so the two ids differ. */
  lemma NameColumnOnly(clock: nat -> nat)
    ensures DecodeSheet("name\nAnn\nBob", clock)
         == [Employee("Ann-undefined-0", Card("Ann", "", "", "", "", "", "", "")),
             Employee("Bob-undefined-1", Card("Bob", "", "", "", "", "", "", ""))]
  {
    NameRows();
    DecodeTwoRows("name\nAnn\nBob", clock, map["name" := "Ann"], map["name" := "Bob"]);
    NormaliseNameOnly("Ann", 0, clock(0));
    NormaliseNameOnly("Bob", 1, clock(1));
    AnnId();
    BobId();
  }
}
