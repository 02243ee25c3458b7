/** The schema description: every base table with its columns (type,
    nullability, default) and its primary key, read from the catalog
    views (scripts/bddr/describe_tables.py). */
module SchemaReport {
  import opened Common
  import opened Text
  import opened Sorting
  import opened Display

  /** A row of `INFORMATION_SCHEMA.TABLES`. */
  datatype TableEntry = TableEntry(tableName: string, tableType: string)

  /** A row of `INFORMATION_SCHEMA.COLUMNS`. */
  datatype ColumnEntry = ColumnEntry(
    tableName: string, columnName: string, dataType: string, ordinal: int,
    maxLength: Option<int>, isNullable: string, columnDefault: Option<string>)

  /** A row of `INFORMATION_SCHEMA.KEY_COLUMN_USAGE`. */
  datatype KeyEntry = KeyEntry(tableName: string, constraintName: string, columnName: string, ordinal: int)

  datatype Catalog = Catalog(tables: seq<TableEntry>, columns: seq<ColumnEntry>, keys: seq<KeyEntry>)

  /** The catalog, or the exception that ends the description. */
  datatype CatalogConn = Open(catalog: Catalog) | Broken

  // ---------------------------------------------------------------------
  // The catalog queries
  // ---------------------------------------------------------------------

  function IsBaseTable(t: TableEntry): bool {
    t.tableType == "BASE TABLE"
  }

  function TableNameOf(t: TableEntry): string {
    t.tableName
  }

  /** `SELECT TABLE_NAME ... WHERE TABLE_TYPE = 'BASE TABLE' ORDER BY
      TABLE_NAME`: one name per base-table row, so a name shared by tables
      of two schemas comes back twice. */
  function BaseTableNames(cat: Catalog): (names: seq<string>)
    ensures forall n :: n in names <==> exists t :: t in cat.tables && IsBaseTable(t) && t.tableName == n
    ensures SortedBy(names, LexLe)
    ensures |names| == |Filter(cat.tables, IsBaseTable)|
  {
    LexLeIsTotalOrder();
    var mapped := Map(Filter(cat.tables, IsBaseTable), TableNameOf);
    var names := SortBy(mapped, LexLe);
    forall n ensures n in names <==> exists t :: t in cat.tables && IsBaseTable(t) && t.tableName == n {
      assert n in names <==> multiset(names)[n] > 0;
      assert n in mapped <==> multiset(mapped)[n] > 0;
      BaseNameListed(cat.tables, n);
    }
    assert |names| == |multiset(names)| == |multiset(mapped)| == |mapped|;
    names
  }

  /** A name is among the base tables' names iff some base table has it. */
  lemma BaseNameListed(tables: seq<TableEntry>, n: string)
    ensures n in Map(Filter(tables, IsBaseTable), TableNameOf)
        <==> exists t :: t in tables && IsBaseTable(t) && t.tableName == n
  {
    var base := Filter(tables, IsBaseTable);
    var mapped := Map(base, TableNameOf);
    if n in mapped {
      var i :| 0 <= i < |base| && mapped[i] == n;
      assert base[i] in base;
    }
    if exists t :: t in tables && IsBaseTable(t) && t.tableName == n {
      var t :| t in tables && IsBaseTable(t) && t.tableName == n;
      assert multiset(base)[t] > 0;
      var i :| 0 <= i < |base| && base[i] == t;
      assert mapped[i] == n;
    }
  }

  predicate ColumnByOrdinal(a: ColumnEntry, b: ColumnEntry) {
    a.ordinal <= b.ordinal
  }

  predicate KeyByOrdinal(a: KeyEntry, b: KeyEntry) {
    a.ordinal <= b.ordinal
  }

  /** `SELECT ... FROM INFORMATION_SCHEMA.COLUMNS WHERE TABLE_NAME = ?
      ORDER BY ORDINAL_POSITION`: each column row of the table, as often as
      the view holds it. */
  function ColumnsOf(cat: Catalog, table: string): (cols: seq<ColumnEntry>)
    ensures forall c :: c in cols <==> c in cat.columns && c.tableName == table
    ensures forall i, j :: 0 <= i < j < |cols| ==> cols[i].ordinal <= cols[j].ordinal
    ensures forall c :: multiset(cols)[c] == if c.tableName == table then multiset(cat.columns)[c] else 0
  {
    assert TotalPreorder(ColumnByOrdinal);
    var kept := Filter(cat.columns, (c: ColumnEntry) => c.tableName == table);
    var cols := SortBy(kept, ColumnByOrdinal);
    assert multiset(cols) == multiset(kept);
    assert forall c :: c in cols <==> multiset(cols)[c] > 0;
    cols
  }

  /** SQL `LIKE` with the wildcards `%` (any run of characters) and `_`
      (exactly one character), no escape character, compared exactly. */
  predicate Like(s: string, pattern: string)
    decreases |s| + |pattern|
  {
    if pattern == [] then s == []
    else if pattern[0] == '%' then Like(s, pattern[1..]) || (s != [] && Like(s[1..], pattern))
    else s != [] && (pattern[0] == '_' || pattern[0] == s[0]) && Like(s[1..], pattern[1..])
  }

  /** `%` alone matches every text. */
  lemma {:induction false} LikeAnything(s: string)
    ensures Like(s, "%")
    decreases |s|
  {
    if s != [] {
      LikeAnything(s[1..]);
    }
  }

  const PrimaryKeyPattern: string := "PK_%"

  /** `CONSTRAINT_NAME LIKE 'PK_%'`: the `_` is itself a wildcard, so the
      filter keeps every name of three or more characters that starts with
      "PK" (for example "PKX"), not only the "PK_" prefix. */
  lemma PrimaryKeyPatternMeaning(name: string)
    ensures Like(name, PrimaryKeyPattern) <==> |name| >= 3 && name[0] == 'P' && name[1] == 'K'
  {
    if |name| >= 3 && name[0] == 'P' && name[1] == 'K' {
      LikeAnything(name[3..]);
      assert Like(name[2..], "_%") by {
        assert name[2..][1..] == name[3..] && "_%"[1..] == "%";
      }
      assert Like(name[1..], "K_%") by {
        assert name[1..][1..] == name[2..] && "K_%"[1..] == "_%";
      }
      assert Like(name, PrimaryKeyPattern) by {
        assert PrimaryKeyPattern[1..] == "K_%";
      }
    }
    if Like(name, PrimaryKeyPattern) {
      assert PrimaryKeyPattern == ['P'] + "K_%";
      LikeHead(name, 'P', "K_%");
      assert "K_%" == ['K'] + "_%";
      LikeHead(name[1..], 'K', "_%");
      assert "_%" == ['_'] + "%";
      LikeHead(name[1..][1..], '_', "%");
      assert |name[1..][1..]| == |name| - 2 && name[1..][0] == name[1];
      assert |name| >= 3 && name[0] == 'P' && name[1] == 'K';
    }
  }

  /** A pattern that starts with a character other than `%` consumes one
      character of the text. */
  lemma LikeHead(s: string, c: char, rest: string)
    requires c != '%' && Like(s, [c] + rest)
    ensures s != [] && (c == '_' || s[0] == c) && Like(s[1..], rest)
  {
    assert ([c] + rest)[0] == c && ([c] + rest)[1..] == rest;
  }

  /** The `WHERE` clause of the primary-key query. */
  predicate IsPrimaryKeyOf(table: string, k: KeyEntry) {
    k.tableName == table && Like(k.constraintName, PrimaryKeyPattern)
  }

  /** `SELECT COLUMN_NAME FROM INFORMATION_SCHEMA.KEY_COLUMN_USAGE WHERE
      TABLE_NAME = ? AND CONSTRAINT_NAME LIKE 'PK_%' ORDER BY
      ORDINAL_POSITION`. */
  function PrimaryKeyEntries(cat: Catalog, table: string): (keys: seq<KeyEntry>)
    ensures forall k :: k in keys <==> k in cat.keys && k.tableName == table && Like(k.constraintName, PrimaryKeyPattern)
    ensures forall i, j :: 0 <= i < j < |keys| ==> keys[i].ordinal <= keys[j].ordinal
    ensures forall k :: multiset(keys)[k] == (if k.tableName == table && Like(k.constraintName, PrimaryKeyPattern)
                                              then multiset(cat.keys)[k] else 0)
  {
    assert TotalPreorder(KeyByOrdinal);
    var kept := Filter(cat.keys, (k: KeyEntry) => IsPrimaryKeyOf(table, k));
    var keys := SortBy(kept, KeyByOrdinal);
    assert multiset(keys) == multiset(kept);
    assert forall k :: k in keys <==> multiset(keys)[k] > 0;
    keys
  }

  function KeyColumnName(k: KeyEntry): string {
    k.columnName
  }

  // ---------------------------------------------------------------------
  // One column
  // ---------------------------------------------------------------------

  /** What is printed for one column. */
  datatype ColumnLine = ColumnLine(name: string, typeLabel: string, nullable: string, defaultShown: string)

  const DefaultWidth: nat := 15

  /** `type(len)` when the length is known and positive, else the bare type
      (NULL, 0 and -1 lengths alike). */
  function TypeLabel(dataType: string, maxLength: Option<int>): (tl: string)
    ensures maxLength.Some? && maxLength.value > 0 ==> |tl| > |dataType| + 2
    ensures !(maxLength.Some? && maxLength.value > 0) ==> tl == dataType
    ensures tl[..|dataType|] == dataType
  {
    if maxLength.Some? && maxLength.value > 0 then dataType + "(" + Decimal(maxLength.value) + ")" else dataType
  }

  /** The length in a `type(len)` label reads back as the column's length. */
  lemma TypeLabelLength(dataType: string, n: nat)
    requires n > 0
    ensures var tl := TypeLabel(dataType, Some(n));
      && tl[|dataType|] == '(' && tl[|tl| - 1] == ')'
      && (forall i :: |dataType| < i < |tl| - 1 ==> '0' <= tl[i] <= '9')
      && DigitsValue(tl[|dataType| + 1..|tl| - 1]) == n
  {
    var tl := TypeLabel(dataType, Some(n));
    assert tl[|dataType| + 1..|tl| - 1] == Decimal(n);
    DecimalRoundTrip(n);
  }

  /** The line of a column: "OUI" exactly for `IS_NULLABLE = 'YES'`, a
      missing or empty default shown as "", a longer-than-15 default cut to
      12 characters and "...". */
  function ColumnLineOf(c: ColumnEntry): (line: ColumnLine)
    ensures line.nullable == "OUI" <==> c.isNullable == "YES"
    ensures line.nullable == "NON" <==> c.isNullable != "YES"
    ensures |line.defaultShown| <= 15
    ensures c.columnDefault.None? || c.columnDefault.value == "" ==> line.defaultShown == ""
    ensures c.columnDefault.Some? && |c.columnDefault.value| <= 15 ==> line.defaultShown == c.columnDefault.value
    ensures c.columnDefault.Some? && |c.columnDefault.value| > 15 ==>
              line.defaultShown == c.columnDefault.value[..12] + "..."
    ensures line.typeLabel == TypeLabel(c.dataType, c.maxLength)
    ensures line.name == c.columnName
  {
    var raw := if c.columnDefault.Some? && c.columnDefault.value != "" then c.columnDefault.value else "";
    ColumnLine(c.columnName, TypeLabel(c.dataType, c.maxLength),
               if c.isNullable == "YES" then "OUI" else "NON",
               Ellipsize(raw, DefaultWidth))
  }

  /** The body of the column loop, with its step-by-step reassignments. */
  method FormatColumn(c: ColumnEntry) returns (line: ColumnLine)
    ensures line == ColumnLineOf(c)
  {
    var isNullable := if c.isNullable == "YES" then "OUI" else "NON";
    var defaultValue := if c.columnDefault.Some? && c.columnDefault.value != "" then c.columnDefault.value else "";
    var typeStr: string;
    if c.maxLength.Some? && c.maxLength.value > 0 {
      typeStr := c.dataType + "(" + Decimal(c.maxLength.value) + ")";
    } else {
      typeStr := c.dataType;
    }
    if |defaultValue| > 15 {
      defaultValue := defaultValue[..12] + "...";
    }
    line := ColumnLine(c.columnName, typeStr, isNullable, defaultValue);
  }

  /** Formatting the shown default again changes nothing. */
  lemma DefaultShownIsStable(c: ColumnEntry)
    ensures var shown := ColumnLineOf(c).defaultShown;
      ColumnLineOf(c.(columnDefault := Some(shown))).defaultShown == shown
  {
    var raw := if c.columnDefault.Some? && c.columnDefault.value != "" then c.columnDefault.value else "";
    EllipsizeIdempotent(raw, DefaultWidth);
  }

  // ---------------------------------------------------------------------
  // One table, and the whole description
  // ---------------------------------------------------------------------

  /** What is printed for one table (the foreign keys and the row count are
      not part of this model). */
  datatype TableReport = TableReport(name: string, columns: seq<ColumnLine>, primaryKey: Option<string>)

  /** The primary-key line: the key columns in ordinal order joined with
      ", ", or no line when the table has none. */
  function PrimaryKeyLine(cat: Catalog, table: string): (line: Option<string>)
    ensures line.None? <==> !exists k :: k in cat.keys && k.tableName == table && Like(k.constraintName, PrimaryKeyPattern)
    ensures line.Some? ==> line.value == Join(Map(PrimaryKeyEntries(cat, table), KeyColumnName), ", ")
  {
    var keys := PrimaryKeyEntries(cat, table);
    if keys == [] then None
    else
      assert keys[0] in keys;
      Some(Join(Map(keys, KeyColumnName), ", "))
  }

  function TableReportOf(cat: Catalog, table: string): TableReport {
    TableReport(table, Map(ColumnsOf(cat, table), ColumnLineOf), PrimaryKeyLine(cat, table))
  }

  /** How a run ends: the "no table" message, the full description, or the
      caught exception's message. */
  datatype Outcome = NoTables | Described(tables: seq<TableReport>) | Failed

  function TableReports(cat: Catalog, tables: seq<string>): (reports: seq<TableReport>)
    ensures |reports| == |tables|
    ensures forall i :: 0 <= i < |tables| ==> reports[i] == TableReportOf(cat, tables[i])
  {
    Map(tables, (t: string) => TableReportOf(cat, t))
  }

  /** The loop over one table's columns, as `ColumnsOf` returns them. */
  method DescribeColumns(columns: seq<ColumnEntry>) returns (lines: seq<ColumnLine>)
    ensures |lines| == |columns|
    ensures forall k :: 0 <= k < |columns| ==> lines[k] == ColumnLineOf(columns[k])
  {
    lines := [];
    for j := 0 to |columns|
      invariant |lines| == j
      invariant forall k :: 0 <= k < j ==> lines[k] == ColumnLineOf(columns[k])
    {
      var line := FormatColumn(columns[j]);
      lines := lines + [line];
    }
  }

  /** One pass of the loop over tables: the column listing, then the
      primary-key line. */
  method DescribeTable(cat: Catalog, table: string) returns (report: TableReport)
    ensures report == TableReportOf(cat, table)
  {
    var columns := ColumnsOf(cat, table);
    var lines := DescribeColumns(columns);
    assert lines == Map(columns, ColumnLineOf);
    report := TableReport(table, lines, PrimaryKeyLine(cat, table));
  }

  /** `describe_tables()`: the loop over tables, each with its columns and
      its primary key. */
  method DescribeTables(conn: CatalogConn) returns (outcome: Outcome)
    ensures conn.Broken? ==> outcome == Failed
    ensures conn.Open? && BaseTableNames(conn.catalog) == [] ==> outcome == NoTables
    ensures conn.Open? && BaseTableNames(conn.catalog) != [] ==>
      outcome == Described(TableReports(conn.catalog, BaseTableNames(conn.catalog)))
  {
    if conn.Broken? {
      return Failed;
    }
    var cat := conn.catalog;
    var tables := BaseTableNames(cat);
    if tables == [] {
      return NoTables;
    }
    var reports := DescribeEach(cat, tables);
    outcome := Described(reports);
  }

  /** The loop over the listed tables, one report each, in order. */
  method DescribeEach(cat: Catalog, tables: seq<string>) returns (reports: seq<TableReport>)
    ensures reports == TableReports(cat, tables)
  {
    reports := [];
    for i := 0 to |tables|
      invariant reports == TableReports(cat, tables[..i])
    {
      var report := DescribeTable(cat, tables[i]);
      MapSnoc(tables, i, (t: string) => TableReportOf(cat, t));
      reports := reports + [report];
    }
    assert tables[..|tables|] == tables;
  }

  /** Every column of a table gets its line in the table's report. */
  lemma EveryColumnDescribed(cat: Catalog, table: string, c: ColumnEntry)
    requires c in cat.columns && c.tableName == table
    ensures ColumnLineOf(c) in TableReportOf(cat, table).columns
  {
    var cols := ColumnsOf(cat, table);
    var k :| 0 <= k < |cols| && cols[k] == c;
    assert TableReportOf(cat, table).columns[k] == ColumnLineOf(c);
  }

  /** Every line of a table's report comes from one of its columns. */
  lemma OnlyTableColumnsDescribed(cat: Catalog, table: string, k: int)
    requires 0 <= k < |TableReportOf(cat, table).columns|
    ensures var d := ColumnsOf(cat, table)[k];
      d in cat.columns && d.tableName == table && TableReportOf(cat, table).columns[k] == ColumnLineOf(d)
  {
    assert ColumnsOf(cat, table)[k] in ColumnsOf(cat, table);
  }
}
