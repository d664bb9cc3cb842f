/**
 * `load_partition_keys`: turning the input file into the list of partition
 * keys to export.  The file's text, the rows `csv.reader` splits it into and
 * the lines iterating over the file yields are inputs; what is modelled is the
 * format sniff, the header rule, the filtering and the order-preserving
 * de-duplication.
 */
module KeyLoader {
  import opened Wrappers
  import opened Text

  datatype LoadError = InputFileNotFound

  /** How many characters of the file are inspected to choose the format. */
  const SampleSize := 2048

  /** The first `SampleSize` characters of the file (`f.read(2048)`). */
  function Sample(text: string): string {
    if |text| <= SampleSize then text else text[..SampleSize]
  }

  /** The format sniff: the sample holds a comma, a semicolon or the header token. */
  predicate LooksCsv(text: string) {
    var sample := Sample(text);
    Contains(sample, ",") || Contains(sample, ";") || Contains(sample, "PartitionKey")
  }

  /** A stripped value is kept as a key when it is not blank and not a comment. */
  predicate Kept(k: string) {
    k != "" && k[0] != '#'
  }

  /** The stripped first cell of a row, or "" for an empty row. */
  function FirstCell(row: seq<string>): string {
    if row == [] then "" else Strip(row[0])
  }

  /** The first row is a header when its first cell, stripped and lower-cased, is "partitionkey". */
  predicate IsHeaderRow(row: seq<string>) {
    Lower(FirstCell(row)) == "partitionkey"
  }

  /**
   * The number of leading rows dropped as a header: at most the first row,
   * and never an empty one or one whose stripped first cell is not twelve
   * characters long.
   */
  function HeaderRows(rows: seq<seq<string>>): (r: nat)
    ensures r <= 1
    ensures r == 1 ==> rows != [] && rows[0] != [] && |Strip(rows[0][0])| == |"partitionkey"|
  {
    if rows != [] && IsHeaderRow(rows[0]) then 1 else 0
  }

  /** The first cells of the non-empty rows, in order. */
  function FirstCells(rows: seq<seq<string>>): seq<string> {
    if rows == [] then []
    else FirstCells(rows[..|rows| - 1]) + (if rows[|rows| - 1] == [] then [] else [rows[|rows| - 1][0]])
  }

  /** The stripped cells that are kept as keys, in order (duplicates included). */
  function Picked(cells: seq<string>): seq<string> {
    if cells == [] then []
    else
      var k := Strip(cells[|cells| - 1]);
      Picked(cells[..|cells| - 1]) + (if Kept(k) then [k] else [])
  }

  /** The keys collected in CSV mode, before de-duplication. */
  function CsvKeys(rows: seq<seq<string>>): seq<string> {
    Picked(FirstCells(rows[HeaderRows(rows)..]))
  }

  /** The keys collected in line mode, before de-duplication. */
  function LineKeys(lines: seq<string>): seq<string> {
    Picked(lines)
  }

  /** `s` with every repeated value removed, keeping each value where it first occurs. */
  function Dedupe(s: seq<string>): seq<string> {
    if s == [] then []
    else
      var d := Dedupe(s[..|s| - 1]);
      if s[|s| - 1] in d then d else d + [s[|s| - 1]]
  }

  /**
   * What `load_partition_keys(path)` returns for a file that exists (or not)
   * and has the given text, CSV rows and lines.
   */
  function LoadKeys(found: bool, text: string, rows: seq<seq<string>>, lines: seq<string>)
    : Result<seq<string>, LoadError>
  {
    if !found then Failure(InputFileNotFound)
    else if LooksCsv(text) then Success(Dedupe(CsvKeys(rows)))
    else Success(Dedupe(LineKeys(lines)))
  }

  /** The position of the first occurrence of `x` in `s`. */
  function FirstIndex(s: seq<string>, x: string): (r: nat)
    requires x in s
    ensures r < |s| && s[r] == x
    ensures forall j :: 0 <= j < r ==> s[j] != x
  {
    if s[0] == x then 0 else 1 + FirstIndex(s[1..], x)
  }

  // ---------------------------------------------------------------------------
  // Properties

  /** A value is picked exactly when some cell strips to it and it is kept. */
  lemma {:induction false} PickedMembers(cells: seq<string>, k: string)
    ensures k in Picked(cells) <==> exists i :: 0 <= i < |cells| && Strip(cells[i]) == k && Kept(k)
  {
    if cells != [] {
      var init := cells[..|cells| - 1];
      PickedMembers(init, k);
      if k in Picked(cells) && k !in Picked(init) {
        assert Strip(cells[|cells| - 1]) == k;
      }
      if exists i :: 0 <= i < |cells| && Strip(cells[i]) == k && Kept(k) {
        var i :| 0 <= i < |cells| && Strip(cells[i]) == k && Kept(k);
        if i < |cells| - 1 { assert init[i] == cells[i]; }
      }
    }
  }

  /** The first cells are exactly the leading cells of the non-empty rows. */
  lemma {:induction false} FirstCellsMembers(rows: seq<seq<string>>, c: string)
    ensures c in FirstCells(rows) <==> exists i :: 0 <= i < |rows| && rows[i] != [] && rows[i][0] == c
  {
    if rows != [] {
      var init := rows[..|rows| - 1];
      FirstCellsMembers(init, c);
      if exists i :: 0 <= i < |rows| && rows[i] != [] && rows[i][0] == c {
        var i :| 0 <= i < |rows| && rows[i] != [] && rows[i][0] == c;
        if i < |rows| - 1 { assert init[i] == rows[i]; }
      }
    }
  }

  /**
   * Header rule in CSV mode: only the first row can be dropped as a header,
   * and only when its stripped, lower-cased first cell is "partitionkey";
   * every other non-empty row whose stripped first cell is kept is a key.
   */
  lemma CsvKeysMembers(rows: seq<seq<string>>, k: string)
    ensures k in CsvKeys(rows) <==> exists i :: HeaderRows(rows) <= i < |rows| && YieldsKey(rows[i], k)
  {
    RowsFromKeysMembers(rows, HeaderRows(rows), k);
  }

  /**
   * The header rule seen from the first row: its value is lost only when the
   * row is a header and no later row gives the same key.
   */
  lemma FirstRowRule(rows: seq<seq<string>>, k: string)
    requires rows != [] && YieldsKey(rows[0], k)
    ensures k in CsvKeys(rows) <==> !IsHeaderRow(rows[0]) || exists i :: 1 <= i < |rows| && YieldsKey(rows[i], k)
  {
    var h := HeaderRows(rows);
    assert h == 1 <==> IsHeaderRow(rows[0]);
    CsvKeysMembers(rows, k);
  }

  lemma RowsFromKeysMembers(rows: seq<seq<string>>, h: nat, k: string)
    requires h <= |rows|
    ensures k in Picked(FirstCells(rows[h..])) <==> exists i :: h <= i < |rows| && YieldsKey(rows[i], k)
  {
    var body := rows[h..];
    BodyKeysMembers(body, k);
    if exists i :: h <= i < |rows| && YieldsKey(rows[i], k) {
      var i :| h <= i < |rows| && YieldsKey(rows[i], k);
      assert body[i - h] == rows[i];
    }
    if exists i :: 0 <= i < |body| && YieldsKey(body[i], k) {
      var i :| 0 <= i < |body| && YieldsKey(body[i], k);
      assert rows[h + i] == body[i];
    }
  }

  /** A row gives the key `k` when it is non-empty and its first cell strips to the kept value `k`. */
  predicate YieldsKey(row: seq<string>, k: string) {
    row != [] && Strip(row[0]) == k && Kept(k)
  }

  /** After the header, a value is a key exactly when some row yields it. */
  lemma BodyKeysMembers(body: seq<seq<string>>, k: string)
    ensures k in Picked(FirstCells(body)) <==> exists i :: 0 <= i < |body| && YieldsKey(body[i], k)
  {
    var cells := FirstCells(body);
    PickedMembers(cells, k);
    if k in Picked(cells) {
      var j :| 0 <= j < |cells| && Strip(cells[j]) == k && Kept(k);
      FirstCellsMembers(body, cells[j]);
    }
    if exists i :: 0 <= i < |body| && YieldsKey(body[i], k) {
      var i :| 0 <= i < |body| && YieldsKey(body[i], k);
      FirstCellsMembers(body, body[i][0]);
    }
  }

  /** Line mode has no header: every line whose stripped text is kept is a key. */
  lemma LineKeysMembers(lines: seq<string>, k: string)
    ensures k in LineKeys(lines) <==> exists i :: 0 <= i < |lines| && Strip(lines[i]) == k && Kept(k)
  {
    PickedMembers(lines, k);
  }

  /**
   * De-duplication keeps exactly the values of its input, each once, and in
   * the order of their first occurrence.
   */
  lemma {:induction false} DedupeSpec(s: seq<string>)
    ensures forall x :: x in Dedupe(s) <==> x in s
    ensures Distinct(Dedupe(s))
    ensures forall i, j :: 0 <= i < j < |Dedupe(s)| ==>
      FirstIndex(s, Dedupe(s)[i]) < FirstIndex(s, Dedupe(s)[j])
  {
    if s != [] {
      var init := s[..|s| - 1];
      var last := s[|s| - 1];
      DedupeSpec(init);
      assert s == init + [last];
      forall x | x in init ensures FirstIndex(s, x) == FirstIndex(init, x) {
        var a, b := FirstIndex(s, x), FirstIndex(init, x);
        assert s[b] == x;
        assert init[a] == x by { if a >= b { } else { assert s[a] == init[a]; } }
      }
      var d := Dedupe(s);
      if last !in Dedupe(init) {
        assert FirstIndex(s, last) == |s| - 1;
        forall i, j | 0 <= i < j < |d|
          ensures FirstIndex(s, d[i]) < FirstIndex(s, d[j])
        {
          assert d[i] in init;
          if j < |d| - 1 { assert d[j] in init; }
        }
      }
    }
  }

  /** De-duplicating a list without repeats leaves it unchanged. */
  lemma {:induction false} DedupeDistinct(s: seq<string>)
    requires Distinct(s)
    ensures Dedupe(s) == s
  {
    if s != [] {
      var init := s[..|s| - 1];
      DedupeDistinct(init);
      assert s[|s| - 1] !in init;
      assert init + [s[|s| - 1]] == s;
    }
  }

  /** Loading is idempotent in the sense that de-duplicating the result again changes nothing. */
  lemma DedupeIdempotent(s: seq<string>)
    ensures Dedupe(Dedupe(s)) == Dedupe(s)
  {
    DedupeSpec(s);
    DedupeDistinct(Dedupe(s));
  }

  /**
   * Every loaded key is non-empty, already stripped and not a comment, the
   * list has no repeats, and its values are exactly the keys collected by the
   * chosen format.
   */
  lemma LoadedKeysWellFormed(found: bool, text: string, rows: seq<seq<string>>, lines: seq<string>)
    requires LoadKeys(found, text, rows, lines).Success?
    ensures var keys := LoadKeys(found, text, rows, lines).value;
      && Distinct(keys)
      && (forall k :: k in keys ==> k != "" && k[0] != '#' && IsStripped(k))
      && (forall k :: k in keys <==> k in (if LooksCsv(text) then CsvKeys(rows) else LineKeys(lines)))
  {
    var collected := if LooksCsv(text) then CsvKeys(rows) else LineKeys(lines);
    var cells := if LooksCsv(text) then FirstCells(rows[HeaderRows(rows)..]) else lines;
    assert collected == Picked(cells);
    DedupeSpec(collected);
    forall k | k in collected ensures k != "" && k[0] != '#' && IsStripped(k) {
      PickedMembers(cells, k);
    }
  }

  /** A comma or semicolon among the first 2048 characters makes the file CSV. */
  lemma SniffSeparator(text: string, i: nat)
    requires i < |text| && i < SampleSize && (text[i] == ',' || text[i] == ';')
    ensures LooksCsv(text)
  {
    var sample := Sample(text);
    assert sample[i..i + 1] == [text[i]];
    assert OccursAt(sample, [text[i]], i);
  }

  /** Nothing after the first 2048 characters changes the format chosen. */
  lemma SniffIgnoresRest(text: string, tail: string)
    requires |text| >= SampleSize
    ensures LooksCsv(text + tail) == LooksCsv(text)
  {
    assert Sample(text + tail) == Sample(text);
  }

  /** A file without ',' or ';' or a capital 'P' is always read line by line. */
  lemma SniffNeedsHint(text: string)
    requires forall i :: 0 <= i < |text| ==> text[i] != ',' && text[i] != ';' && text[i] != 'P'
    ensures !LooksCsv(text)
  {
    var sample := Sample(text);
    assert forall c :: c in sample ==> c in text;
    if Contains(sample, ",") { ContainsHead(sample, ","); }
    if Contains(sample, ";") { ContainsHead(sample, ";"); }
    if Contains(sample, "PartitionKey") { ContainsHead(sample, "PartitionKey"); }
  }

  /**
   * The header test in full: a row is a header exactly when it is non-empty
   * and its stripped first cell spells "partitionkey" with each letter in
   * either case (a Kelvin sign standing for 'k').
   */
  lemma HeaderRowIgnoresCase(row: seq<string>)
    ensures var w := "partitionkey";
      IsHeaderRow(row) <==>
        row != [] && |Strip(row[0])| == |w| &&
        forall i :: 0 <= i < |w| ==>
          Strip(row[0])[i] == w[i] || Strip(row[0])[i] as int + 32 == w[i] as int
          || (w[i] == 'k' && Strip(row[0])[i] == '\U{212A}')
  {
    LowerMatches(FirstCell(row), "partitionkey");
  }

  /** The header test ignores case. */
  lemma HeaderCaseExample()
    ensures IsHeaderRow(["PARTITIONKEY", "RowKey"])
    ensures IsHeaderRow(["partitionKey"])
  {
    StripStripped("PARTITIONKEY");
    StripStripped("partitionKey");
    assert Lower("PARTITIONKEY") == "partitionkey";
    assert Lower("partitionKey") == "partitionkey";
  }

  /** The header test ignores surrounding whitespace. */
  lemma HeaderOuterSpaceExample()
    ensures IsHeaderRow([" PartitionKey"])
  {
    StripStripped("PartitionKey");
    assert TrimStart(" PartitionKey") == TrimStart("PartitionKey") == "PartitionKey";
    assert Lower("PartitionKey") == "partitionkey";
  }

  /** The header test does not ignore inner spaces, and an empty row is never a header. */
  lemma HeaderInnerSpaceExample()
    ensures !IsHeaderRow(["Partition Key"])
    ensures !IsHeaderRow([])
  {
    StripStripped("Partition Key");
    assert Lower("Partition Key")[9] == ' ';
  }

  // ---------------------------------------------------------------------------
  // The imperative procedure

  /** `load_partition_keys`: the file check, the format choice, then collection and de-duplication. */
  method LoadPartitionKeys(found: bool, text: string, rows: seq<seq<string>>, lines: seq<string>)
    returns (r: Result<seq<string>, LoadError>)
    ensures r == LoadKeys(found, text, rows, lines)
  {
    if !found {
      return Failure(InputFileNotFound);
    }
    var keys: seq<string>;
    if LooksCsv(text) {
      if rows == [] {
        return Success([]);
      }
      keys := CollectCsvKeys(rows);
    } else {
      keys := CollectLineKeys(lines);
    }
    var out := DedupeKeys(keys);
    return Success(out);
  }

  /** The CSV branch: drop a header row, then collect from the rows after it. */
  method CollectCsvKeys(rows: seq<seq<string>>) returns (keys: seq<string>)
    requires rows != []
    ensures keys == CsvKeys(rows)
  {
    var firstCell := if rows[0] != [] then Strip(rows[0][0]) else "";
    var start := if Lower(firstCell) == "partitionkey" then 1 else 0;
    assert start == HeaderRows(rows);
    keys := CollectRowKeys(rows[start..]);
  }

  /** The loop over `rows[start:]`: skip empty rows, append each kept, stripped first cell. */
  method CollectRowKeys(body: seq<seq<string>>) returns (keys: seq<string>)
    ensures keys == Picked(FirstCells(body))
  {
    keys := [];
    for i := 0 to |body|
      invariant keys == Picked(FirstCells(body[..i]))
    {
      FirstCellsStep(body, i);
      ghost var cells := FirstCells(body[..i]);
      var row := body[i];
      if row == [] {
        assert FirstCells(body[..i + 1]) == cells + [] == cells;
        continue;
      }
      assert FirstCells(body[..i + 1]) == cells + [row[0]];
      PickedStep(cells, row[0]);
      var pk := Strip(row[0]);
      if Kept(pk) {
        keys := keys + [pk];
      }
    }
    assert body[..|body|] == body;
  }

  lemma FirstCellsStep(rows: seq<seq<string>>, i: nat)
    requires i < |rows|
    ensures FirstCells(rows[..i + 1])
         == FirstCells(rows[..i]) + (if rows[i] == [] then [] else [rows[i][0]])
  {
    assert rows[..i + 1][..i] == rows[..i];
  }

  lemma PickedStep(cells: seq<string>, c: string)
    ensures Picked(cells + [c]) == Picked(cells) + (if Kept(Strip(c)) then [Strip(c)] else [])
  {
    assert (cells + [c])[..|cells|] == cells;
  }

  /** The line branch: append each kept, stripped line; no header is looked for. */
  method CollectLineKeys(lines: seq<string>) returns (keys: seq<string>)
    ensures keys == LineKeys(lines)
  {
    keys := [];
    for i := 0 to |lines|
      invariant keys == Picked(lines[..i])
    {
      assert lines[..i + 1][..i] == lines[..i];
      var pk := Strip(lines[i]);
      if Kept(pk) {
        keys := keys + [pk];
      }
    }
    assert lines[..|lines|] == lines;
  }

  /** The de-duplication loop with its `seen` set. */
  method DedupeKeys(keys: seq<string>) returns (out: seq<string>)
    ensures out == Dedupe(keys)
  {
    var seen: set<string> := {};
    out := [];
    for i := 0 to |keys|
      invariant out == Dedupe(keys[..i])
      invariant seen == set k | k in out
    {
      assert keys[..i + 1][..i] == keys[..i];
      var k := keys[i];
      if k !in seen {
        seen := seen + {k};
        out := out + [k];
      }
    }
    assert keys[..|keys|] == keys;
  }

  // ---------------------------------------------------------------------------
  // Worked inputs

  /** A header, a repeated key and a comment line: the keys are A then B. */
  lemma HeaderDuplicateAndCommentExample()
    ensures LoadKeys(true, "PartitionKey\nA\nA\nB\n#comment\n",
                     [["PartitionKey"], ["A"], ["A"], ["B"], ["#comment"]], []) == Success(["A", "B"])
  {
    ExampleSniffed();
    ExampleCsvKeys();
    ExampleDedupe();
  }

  lemma ExampleSniffed()
    ensures LooksCsv("PartitionKey\nA\nA\nB\n#comment\n")
  {
    var text := "PartitionKey\nA\nA\nB\n#comment\n";
    assert Sample(text) == text;
    assert OccursAt(text, "PartitionKey", 0);
  }

  lemma ExampleDedupe()
    ensures Dedupe(["A", "A", "B"]) == ["A", "B"]
  {
    var keys := ["A", "A", "B"];
    assert keys[..2] == ["A", "A"] && keys[..2][..1] == ["A"] && keys[..2][..1][..0] == [];
    assert Dedupe(["A"]) == ["A"];
    assert Dedupe(["A", "A"]) == ["A"];
  }

  lemma ExampleCsvKeys()
    ensures CsvKeys([["PartitionKey"], ["A"], ["A"], ["B"], ["#comment"]]) == ["A", "A", "B"]
  {
    var rows := [["PartitionKey"], ["A"], ["A"], ["B"], ["#comment"]];
    StripStripped("PartitionKey");
    assert Lower("PartitionKey") == "partitionkey";
    assert HeaderRows(rows) == 1;
    ExampleFirstCells();
    ExamplePicked();
  }

  lemma ExampleFirstCells()
    ensures FirstCells([["A"], ["A"], ["B"], ["#comment"]]) == ["A", "A", "B", "#comment"]
  {
    var b1, b2, b3 := [["A"]], [["A"], ["A"]], [["A"], ["A"], ["B"]];
    var body := [["A"], ["A"], ["B"], ["#comment"]];
    assert body[..3] == b3 && b3[..2] == b2 && b2[..1] == b1 && b1[..0] == [];
    assert FirstCells(b1) == ["A"];
    assert FirstCells(b2) == ["A", "A"];
    assert FirstCells(b3) == ["A", "A", "B"];
  }

  lemma ExamplePicked()
    ensures Picked(["A", "A", "B", "#comment"]) == ["A", "A", "B"]
  {
    ExamplePickedPrefix();
    StripStripped("#comment");
    PickedStep(["A", "A", "B"], "#comment");
    assert ["A", "A", "B"] + ["#comment"] == ["A", "A", "B", "#comment"];
  }

  lemma ExamplePickedPrefix()
    ensures Picked(["A", "A", "B"]) == ["A", "A", "B"]
  {
    StripStripped("A");
    StripStripped("B");
    var c1, c2, c3 := ["A"], ["A", "A"], ["A", "A", "B"];
    assert c3[..2] == c2 && c2[..1] == c1 && c1[..0] == [];
    assert Picked(c1) == ["A"];
    assert Picked(c2) == ["A", "A"];
  }

  /**
   * A lower-case header in a file without ',' or ';' is not recognised: the
   * sniff is case-sensitive, so the file is read line by line and the header
   * line becomes a key.
   */
  lemma LowercaseHeaderInLineModeExample()
    ensures LoadKeys(true, "partitionkey\nA\n", [], ["partitionkey\n", "A\n"])
         == Success(["partitionkey", "A"])
  {
    LowercaseHeaderNotSniffed();
    LowercaseHeaderLineKeys();
    var keys := ["partitionkey", "A"];
    assert keys[..1][..0] == [];
    assert Dedupe(keys[..1]) == ["partitionkey"];
  }

  lemma LowercaseHeaderNotSniffed()
    ensures !LooksCsv("partitionkey\nA\n")
  {
    var text := "partitionkey\nA\n";
    assert Sample(text) == text;
    if Contains(text, ",") { ContainsHead(text, ","); }
    if Contains(text, ";") { ContainsHead(text, ";"); }
    if Contains(text, "PartitionKey") { ContainsHead(text, "PartitionKey"); }
  }

  lemma LowercaseHeaderLineKeys()
    ensures LineKeys(["partitionkey\n", "A\n"]) == ["partitionkey", "A"]
  {
    assert TrimEnd("partitionkey\n") == TrimEnd("partitionkey") == "partitionkey";
    assert Strip("partitionkey\n") == "partitionkey";
    assert TrimEnd("A\n") == TrimEnd("A") == "A";
    assert Strip("A\n") == "A";
    var lines := ["partitionkey\n", "A\n"];
    assert lines[..1][..0] == [];
    assert Picked(lines[..1]) == ["partitionkey"];
  }
}
