/**
 * `write_csv`: the header is the union of the entities' property names, with
 * PartitionKey, RowKey and Timestamp first (those present, in that order)
 * and the rest sorted as Python sorts strings, by code point; each entity
 * becomes one row, blank where it lacks a column.
 */
module CsvWriter {
  import opened Fetcher
  import opened Text

  /** `a < b` for Python strings: code-point lexicographic order, a proper prefix first. */
  predicate Below(a: string, b: string)
    decreases |a|
  {
    b != [] && (a == [] || a[0] < b[0] || (a[0] == b[0] && Below(a[1..], b[1..])))
  }

  lemma {:induction false} BelowIrreflexive(a: string)
    ensures !Below(a, a)
    decreases |a|
  {
    if a != [] {
      BelowIrreflexive(a[1..]);
    }
  }

  lemma {:induction false} BelowTransitive(a: string, b: string, c: string)
    requires Below(a, b) && Below(b, c)
    ensures Below(a, c)
    decreases |a|
  {
    if a != [] && a[0] == b[0] && b[0] == c[0] {
      BelowTransitive(a[1..], b[1..], c[1..]);
    }
  }

  lemma {:induction false} BelowTotal(a: string, b: string)
    ensures a == b || Below(a, b) || Below(b, a)
    decreases |a|
  {
    if a != [] && b != [] && a[0] == b[0] {
      BelowTotal(a[1..], b[1..]);
      if a[1..] == b[1..] {
        assert a == [a[0]] + a[1..] && b == [b[0]] + b[1..];
      }
    }
  }

  lemma {:induction false} BelowAsymmetric(a: string, b: string)
    requires Below(a, b)
    ensures !Below(b, a)
    decreases |a|
  {
    if a != [] && a[0] == b[0] {
      BelowAsymmetric(a[1..], b[1..]);
    }
  }

  /** `m` sorts before every other member of `s`. */
  predicate IsLeast(m: string, s: set<string>) {
    m in s && forall x :: x in s && x != m ==> Below(m, x)
  }

  lemma {:induction false} LeastExists(s: set<string>)
    requires s != {}
    ensures exists m :: IsLeast(m, s)
    decreases |s|
  {
    var x :| x in s;
    if s != {x} {
      var rest := s - {x};
      LeastExists(rest);
      var m :| IsLeast(m, rest);
      BelowTotal(x, m);
      if Below(x, m) {
        forall y | y in s && y != x ensures Below(x, y) {
          if y != m { BelowTransitive(x, m, y); }
        }
        assert IsLeast(x, s);
      } else {
        assert IsLeast(m, s);
      }
    } else {
      assert IsLeast(x, s);
    }
  }

  lemma LeastUnique(s: set<string>)
    ensures forall m, m' :: IsLeast(m, s) && IsLeast(m', s) ==> m == m'
  {
    forall m, m' | IsLeast(m, s) && IsLeast(m', s) ensures m == m' {
      if m != m' {
        BelowAsymmetric(m, m');
      }
    }
  }

  /** The member of a non-empty set that sorts first. */
  function Least(s: set<string>): (m: string)
    requires s != {}
    ensures IsLeast(m, s)
  {
    LeastExists(s);
    LeastUnique(s);
    var m :| IsLeast(m, s);
    m
  }

  predicate StrictlySorted(r: seq<string>) {
    forall i, j :: 0 <= i < j < |r| ==> Below(r[i], r[j])
  }

  /** `sorted(s)`: the members of `s`, each once, in ascending order. */
  function SortedSet(s: set<string>): (r: seq<string>)
    ensures |r| == |s|
    ensures forall x :: x in r <==> x in s
    ensures StrictlySorted(r)
    decreases |s|
  {
    if s == {} then []
    else
      var m := Least(s);
      var rest := SortedSet(s - {m});
      assert forall i :: 0 <= i < |rest| ==> rest[i] in s - {m};
      [m] + rest
  }

  /** The columns that go first, in this order, when present (line 217). */
  predicate IsPreferred(c: string) {
    c == "PartitionKey" || c == "RowKey" || c == "Timestamp"
  }

  /** The position of a preferred column in the fixed order. */
  function Rank(c: string): nat {
    if c == "PartitionKey" then 0 else if c == "RowKey" then 1 else 2
  }

  /** `[c for c in preferred if c in colset]`, over the three preferred names. */
  function PreferredPresent(colset: set<string>): (p: seq<string>)
    ensures forall c :: c in p <==> IsPreferred(c) && c in colset
    ensures forall i, j :: 0 <= i < j < |p| ==> Rank(p[i]) < Rank(p[j])
  {
    (if "PartitionKey" in colset then ["PartitionKey"] else [])
    + (if "RowKey" in colset then ["RowKey"] else [])
    + (if "Timestamp" in colset then ["Timestamp"] else [])
  }

  /** The names that are not preferred: `[c for c in colset if c not in preferred]`. */
  function Others(colset: set<string>): (o: set<string>)
    ensures forall c :: c in o <==> c in colset && !IsPreferred(c)
  {
    colset - {"PartitionKey", "RowKey", "Timestamp"}
  }

  /**
   * The first `k` entries of `r` are the preferred ones, in their fixed
   * order; the entries after them are in strictly ascending order.
   */
  predicate PreferredThenSorted(r: seq<string>, k: nat) {
    && k <= |r|
    && (forall i :: 0 <= i < |r| ==> (IsPreferred(r[i]) <==> i < k))
    && (forall i, j :: 0 <= i < j < k ==> Rank(r[i]) < Rank(r[j]))
    && (forall i, j :: k <= i < j < |r| ==> Below(r[i], r[j]))
  }

  lemma ConcatShape(first: seq<string>, rest: seq<string>)
    requires forall c :: c in first ==> IsPreferred(c)
    requires forall i, j :: 0 <= i < j < |first| ==> Rank(first[i]) < Rank(first[j])
    requires forall c :: c in rest ==> !IsPreferred(c)
    requires StrictlySorted(rest)
    ensures Distinct(first + rest)
    ensures PreferredThenSorted(first + rest, |first|)
  {
    var r := first + rest;
    assert forall i :: 0 <= i < |first| ==> first[i] in first;
    assert forall i :: 0 <= i < |rest| ==> rest[i] in rest;
    forall i, j | 0 <= i < j < |r| ensures r[i] != r[j] {
      if j < |first| {
        assert Rank(r[i]) < Rank(r[j]);
      } else if i >= |first| {
        BelowIrreflexive(r[i]);
        assert Below(rest[i - |first|], rest[j - |first|]);
      } else {
        assert IsPreferred(r[i]) && !IsPreferred(r[j]);
      }
    }
    assert forall i, j :: |first| <= i < j < |r| ==> Below(r[i], r[j]) by {
      forall i, j | |first| <= i < j < |r| ensures Below(r[i], r[j]) {
        assert r[i] == rest[i - |first|] && r[j] == rest[j - |first|];
      }
    }
  }

  /**
   * The column order of line 218.  Every name in `colset` is a column, once;
   * the preferred names present come first, in their fixed order, and the
   * other names follow in strictly ascending order.
   */
  function Columns(colset: set<string>): (r: seq<string>)
    ensures Distinct(r)
    ensures forall c :: c in r <==> c in colset
    ensures PreferredThenSorted(r, |PreferredPresent(colset)|)
  {
    var first := PreferredPresent(colset);
    var rest := SortedSet(Others(colset));
    ConcatShape(first, rest);
    first + rest
  }

  /** One CSV cell: the entity's value, or "" where it has none (`restval`). */
  function Cell(e: Entity, c: string): string {
    if c in e then e[c] else ""
  }

  /** `DictWriter.writerow(e)` with `extrasaction="ignore"`: one cell per column, extra properties dropped. */
  function ProjectRow(columns: seq<string>, e: Entity): (row: seq<string>)
    ensures |row| == |columns|
  {
    seq(|columns|, i requires 0 <= i < |columns| => Cell(e, columns[i]))
  }

  /** Reading a row back as `csv.DictReader` does: column name to cell, a later column winning. */
  function ReadRow(columns: seq<string>, cells: seq<string>): map<string, string>
    requires |cells| == |columns|
  {
    if columns == [] then map[]
    else
      var n := |columns| - 1;
      ReadRow(columns[..n], cells[..n])[columns[n] := cells[n]]
  }

  /** The properties of `m` whose value is not empty. */
  function NonEmpty(m: map<string, string>): map<string, string> {
    map k | k in m && m[k] != "" :: m[k]
  }

  lemma {:induction false} ReadProjectedRow(columns: seq<string>, e: Entity)
    ensures ReadRow(columns, ProjectRow(columns, e)) == map c | c in columns :: Cell(e, c)
  {
    if columns != [] {
      var n := |columns| - 1;
      assert ProjectRow(columns, e)[..n] == ProjectRow(columns[..n], e);
      ReadProjectedRow(columns[..n], e);
      assert forall c :: c in columns <==> c in columns[..n] || c == columns[n];
    }
  }

  /**
   * A written row loses nothing but the difference between an empty value
   * and a missing one: read back under the header, it gives every column,
   * blank where the entity has no value, and its non-empty cells are exactly
   * the entity's non-empty properties.
   */
  lemma RowRoundTrip(columns: seq<string>, e: Entity)
    requires forall k :: k in e ==> k in columns
    ensures ReadRow(columns, ProjectRow(columns, e)).Keys == set c | c in columns
    ensures NonEmpty(ReadRow(columns, ProjectRow(columns, e))) == NonEmpty(e)
  {
    ReadProjectedRow(columns, e);
  }

  /** Properties outside the header never reach the row. */
  lemma ExtraPropertiesIgnored(columns: seq<string>, e: Entity, e': Entity)
    requires forall c :: c in columns ==> Cell(e, c) == Cell(e', c)
    ensures ProjectRow(columns, e) == ProjectRow(columns, e')
  {
  }

  /** The names of all properties of all entities (the `colset` of lines 212-214). */
  function UnionKeys(rows: seq<Entity>): set<string> {
    if rows == [] then {} else UnionKeys(rows[..|rows| - 1]) + rows[|rows| - 1].Keys
  }

  lemma {:induction false} UnionKeysMembers(rows: seq<Entity>, k: string)
    ensures k in UnionKeys(rows) <==> exists i :: 0 <= i < |rows| && k in rows[i]
  {
    if rows != [] {
      var n := |rows| - 1;
      UnionKeysMembers(rows[..n], k);
      if exists i :: 0 <= i < |rows| && k in rows[i] {
        var i :| 0 <= i < |rows| && k in rows[i];
        if i < n { assert rows[..n][i] == rows[i]; }
      }
    }
  }

  /** The `colset` loop of lines 212-214: every property name of every entity. */
  method CollectColumnNames(rows: seq<Entity>) returns (colset: set<string>)
    ensures colset == UnionKeys(rows)
  {
    colset := {};
    for i := 0 to |rows|
      invariant colset == UnionKeys(rows[..i])
    {
      assert rows[..i + 1][..i] == rows[..i];
      colset := colset + rows[i].Keys;
    }
    assert rows[..|rows|] == rows;
  }

  /**
   * `write_csv(rows, out_path)` without the file: the header row and the
   * data rows it writes.
   */
  method WriteCsv(rows: seq<Entity>) returns (header: seq<string>, table: seq<seq<string>>)
    ensures header == Columns(UnionKeys(rows))
    ensures |table| == |rows|
    ensures forall i :: 0 <= i < |rows| ==> table[i] == ProjectRow(header, rows[i])
  {
    var colset := CollectColumnNames(rows);
    header := Columns(colset);
    table := WriteRows(header, rows);
  }

  /** The `writerow` loop of lines 223-224: one projected row per entity, in order. */
  method WriteRows(header: seq<string>, rows: seq<Entity>) returns (table: seq<seq<string>>)
    ensures |table| == |rows|
    ensures forall i :: 0 <= i < |rows| ==> table[i] == ProjectRow(header, rows[i])
  {
    table := [];
    for i := 0 to |rows|
      invariant |table| == i
      invariant forall j :: 0 <= j < i ==> table[j] == ProjectRow(header, rows[j])
    {
      table := table + [ProjectRow(header, rows[i])];
    }
  }

  /**
   * The header is exactly the union of the entities' property names: no
   * property of any entity is left without a column, no column is made up.
   */
  lemma HeaderIsUnionOfProperties(rows: seq<Entity>, c: string)
    ensures c in Columns(UnionKeys(rows)) <==> exists i :: 0 <= i < |rows| && c in rows[i]
  {
    UnionKeysMembers(rows, c);
  }

  /** The two entities of the example below: the same key columns, different extra properties. */
  const FirstEntity: Entity := map["PartitionKey" := "p", "RowKey" := "1", "X" := "x"]
  const SecondEntity: Entity := map["PartitionKey" := "p", "RowKey" := "2", "Y" := "y"]

  /**
   * Two entities with different extra properties: the header is PartitionKey,
   * RowKey, then X and Y, and each entity's row leaves the other's column blank.
   */
  lemma TwoEntitiesExample()
    ensures Columns(UnionKeys([FirstEntity, SecondEntity])) == ["PartitionKey", "RowKey", "X", "Y"]
    ensures ProjectRow(["PartitionKey", "RowKey", "X", "Y"], FirstEntity) == ["p", "1", "x", ""]
    ensures ProjectRow(["PartitionKey", "RowKey", "X", "Y"], SecondEntity) == ["p", "2", "", "y"]
  {
    ExampleUnion();
    ExampleHeader();
    ExampleRows();
  }

  lemma ExampleUnion()
    ensures UnionKeys([FirstEntity, SecondEntity]) == {"PartitionKey", "RowKey", "X", "Y"}
  {
    assert [FirstEntity, SecondEntity][..1] == [FirstEntity];
    assert [FirstEntity][..0] == [];
    assert UnionKeys([FirstEntity]) == FirstEntity.Keys;
    assert FirstEntity.Keys == {"PartitionKey", "RowKey", "X"};
    assert SecondEntity.Keys == {"PartitionKey", "RowKey", "Y"};
  }

  lemma ExampleRows()
    ensures ProjectRow(["PartitionKey", "RowKey", "X", "Y"], FirstEntity) == ["p", "1", "x", ""]
    ensures ProjectRow(["PartitionKey", "RowKey", "X", "Y"], SecondEntity) == ["p", "2", "", "y"]
  {
    assert "Y" !in FirstEntity;
    assert "X" !in SecondEntity;
  }

  /** The header of the column names PartitionKey, RowKey, X and Y. */
  lemma ExampleHeader()
    ensures Columns({"PartitionKey", "RowKey", "X", "Y"}) == ["PartitionKey", "RowKey", "X", "Y"]
  {
    var colset := {"PartitionKey", "RowKey", "X", "Y"};
    assert PreferredPresent(colset) == ["PartitionKey", "RowKey"];
    assert Others(colset) == {"X", "Y"};
    SortedPairExample();
  }

  lemma SortedPairExample()
    ensures SortedSet({"X", "Y"}) == ["X", "Y"]
  {
    var rest := SortedSet({"X", "Y"});
    assert rest[0] in {"X", "Y"} && rest[1] in {"X", "Y"};
    assert !Below("X", "X") && !Below("Y", "Y") && !Below("Y", "X");
  }
}
