/** The schema records the join-path search runs on (`table_entities.py`): columns,
    foreign keys and tables, the primary-key query on a table, the text rendering of a
    table, and the pure post-processing the catalog loaders apply to the rows the
    database returns (building the columns dict, marking primary keys, grouping
    foreign-key rows). The database queries themselves are not part of this model:
    their rows are parameters. */
module TableEntities {
  import opened Wrappers

  /** A column of a table (the source's `Columns` record). */
  datatype Column = Column(fieldName: string, dataType: string, primaryKey: bool)

  /** One foreign-key fact (the source's `ForeignKeys` record), fields in the order the
      record declares them. */
  datatype ForeignKey = ForeignKey(referencingColumn: string, referencingTable: string,
                                   referenceColumn: string, referenceTable: string)

  /** An insertion-ordered dict from a key to a list of foreign keys. The loaders only
      ever use one key, the loaded table's own name. */
  type FkDict = seq<(string, seq<ForeignKey>)>

  /** A table (the source's `Table` record). The columns dict is keyed by field name, so
      it is the sequence of its values in insertion order (see UniqueNames). */
  datatype Table = Table(tableName: string, registries: int, columns: seq<Column>,
                         foreignKeys: FkDict, referencesToTable: FkDict)

  /** A dict holds each key once: no two columns share a field name. */
  predicate UniqueNames(cols: seq<Column>)
  {
    forall i, j :: 0 <= i < j < |cols| ==> cols[i].fieldName != cols[j].fieldName
  }

  /** All foreign keys of a dict, entry by entry and in list order: the order in which
      `for _, fks in d.items(): for fk in fks` visits them. */
  function Flatten(d: FkDict): seq<ForeignKey>
  {
    if d == [] then [] else Flatten(d[..|d| - 1]) + d[|d| - 1].1
  }

  lemma {:induction false} FlattenAppend(a: FkDict, b: FkDict)
    ensures Flatten(a + b) == Flatten(a) + Flatten(b)
    decreases |b|
  {
    if b == [] {
      assert a + b == a;
    } else {
      var n := |b| - 1;
      var ab := a + b;
      assert ab[..|ab| - 1] == a + b[..n] && ab[|ab| - 1] == b[n];
      assert Flatten(ab) == Flatten(a + b[..n]) + b[n].1;
      FlattenAppend(a, b[..n]);
      assert Flatten(b) == Flatten(b[..n]) + b[n].1;
    }
  }

  // ---------------------------------------------------------------------------
  // Table.get_primary_keys

  /** The columns whose primary-key flag is set, in the columns' order. */
  function PrimaryKeys(cols: seq<Column>): seq<Column>
  {
    if cols == [] then []
    else PrimaryKeys(cols[..|cols| - 1]) + (if cols[|cols| - 1].primaryKey then [cols[|cols| - 1]] else [])
  }

  /** Selecting primary keys keeps the order: it distributes over concatenation. */
  lemma {:induction false} PrimaryKeysAppend(a: seq<Column>, b: seq<Column>)
    ensures PrimaryKeys(a + b) == PrimaryKeys(a) + PrimaryKeys(b)
    decreases |b|
  {
    if b == [] {
      assert a + b == a;
    } else {
      var n := |b| - 1;
      assert (a + b)[..|a + b| - 1] == a + b[..n];
      PrimaryKeysAppend(a, b[..n]);
    }
  }

  /** Exactly the primary-key columns are selected. */
  lemma {:induction false} PrimaryKeysMembers(cols: seq<Column>)
    ensures forall c :: c in PrimaryKeys(cols) <==> c in cols && c.primaryKey
    ensures |PrimaryKeys(cols)| <= |cols|
  {
    if cols != [] {
      var n := |cols| - 1;
      PrimaryKeysMembers(cols[..n]);
      assert cols == cols[..n] + [cols[n]];
    }
  }

  method GetPrimaryKeys(t: Table) returns (r: seq<Column>)
    ensures r == PrimaryKeys(t.columns)
    ensures forall c :: c in r <==> c in t.columns && c.primaryKey
  {
    r := [];
    var i := 0;
    while i < |t.columns|
      invariant 0 <= i <= |t.columns|
      invariant r == PrimaryKeys(t.columns[..i])
    {
      assert t.columns[..i + 1][..i] == t.columns[..i];
      if t.columns[i].primaryKey {
        r := r + [t.columns[i]];
      }
      i := i + 1;
    }
    assert t.columns[..i] == t.columns;
    PrimaryKeysMembers(t.columns);
  }

  // ---------------------------------------------------------------------------
  // Columns.__str__ and Table.__str__

  /** Python's `str` of an integer: decimal digits, with a leading minus sign. */
  function IntToString(i: int): (s: string)
    ensures |s| > 0
  {
    if i < 0 then "-" + NatToString(-i) else NatToString(i)
  }

  function NatToString(n: nat): (s: string)
    ensures |s| > 0 && forall k :: 0 <= k < |s| ==> '0' <= s[k] <= '9'
  {
    if n < 10 then ["0123456789"[n]] else NatToString(n / 10) + ["0123456789"[n % 10]]
  }

  /** The number a string of decimal digits stands for, most significant digit first. */
  function DigitsValue(s: string): nat
    requires forall k :: 0 <= k < |s| ==> '0' <= s[k] <= '9'
  {
    if s == [] then 0 else 10 * DigitsValue(s[..|s| - 1]) + (s[|s| - 1] as int - '0' as int)
  }

  /** The number the text of an integer stands for: a leading minus sign negates the
      value of the digits after it. */
  function SignedValue(s: string): int
    requires |s| > 0 && (s[0] == '-' || '0' <= s[0] <= '9')
    requires forall k :: 0 < k < |s| ==> '0' <= s[k] <= '9'
  {
    if s[0] == '-' then -(DigitsValue(s[1..]) as int) else DigitsValue(s)
  }

  /** The digit character of a number below ten stands for that number. */
  lemma DigitValue(d: nat)
    requires d < 10
    ensures '0' <= "0123456789"[d] <= '9' && "0123456789"[d] as int - '0' as int == d
  {
  }

  /** The digits of a natural number spell it, with no leading zero. */
  lemma {:induction false} NatToStringValue(n: nat)
    ensures DigitsValue(NatToString(n)) == n
    ensures NatToString(n)[0] == '0' ==> n == 0
    decreases n
  {
    var s := NatToString(n);
    if n < 10 {
      DigitValue(n);
    } else {
      var prefix := NatToString(n / 10);
      NatToStringValue(n / 10);
      DigitValue(n % 10);
      assert s[..|s| - 1] == prefix;
      assert s[0] == prefix[0];
    }
  }

  /** The text of an integer spells it, with a minus sign exactly when it is negative. */
  lemma IntToStringValue(i: int)
    ensures var s := IntToString(i);
      && (s[0] == '-' <==> i < 0)
      && (forall k :: 0 < k < |s| ==> '0' <= s[k] <= '9')
      && SignedValue(s) == i
  {
    var s := IntToString(i);
    var digits := NatToString(if i < 0 then -i else i);
    NatToStringValue(if i < 0 then -i else i);
    if i < 0 {
      assert s == "-" + digits && s[1..] == digits;
    } else {
      assert s == digits && '0' <= s[0] <= '9';
    }
  }

  function ColumnText(c: Column): string
  {
    "Column: " + c.fieldName + " - " + c.dataType
  }

  /** One tab-indented line per column, in the columns' order. */
  function ColumnLines(cols: seq<Column>): string
  {
    if cols == [] then "" else ColumnLines(cols[..|cols| - 1]) + "\t" + ColumnText(cols[|cols| - 1]) + "\n"
  }

  lemma {:induction false} ColumnLinesAppend(a: seq<Column>, b: seq<Column>)
    ensures ColumnLines(a + b) == ColumnLines(a) + ColumnLines(b)
    decreases |b|
  {
    if b == [] {
      assert a + b == a;
    } else {
      var n := |b| - 1;
      assert (a + b)[..|a + b| - 1] == a + b[..n];
      ColumnLinesAppend(a, b[..n]);
    }
  }

  function PrimaryKeyLine(c: Column): string
  {
    "\tPrimary key: " + c.fieldName + "\n"
  }

  /** The primary-key section as the rendering loop writes it: one line for each column
      whose flag is set. */
  function PrimaryKeyLines(cols: seq<Column>): string
  {
    if cols == [] then ""
    else PrimaryKeyLines(cols[..|cols| - 1]) + (if cols[|cols| - 1].primaryKey then PrimaryKeyLine(cols[|cols| - 1]) else "")
  }

  /** One primary-key line for every column of a list. */
  function NameLines(cols: seq<Column>): string
  {
    if cols == [] then "" else NameLines(cols[..|cols| - 1]) + PrimaryKeyLine(cols[|cols| - 1])
  }

  /** The rendered primary-key section names the columns get_primary_keys returns, in
      the same order. */
  lemma {:induction false} PrimaryKeyLinesMatchPrimaryKeys(cols: seq<Column>)
    ensures PrimaryKeyLines(cols) == NameLines(PrimaryKeys(cols))
  {
    if cols != [] {
      var n := |cols| - 1;
      PrimaryKeyLinesMatchPrimaryKeys(cols[..n]);
      var p := PrimaryKeys(cols[..n]);
      if cols[n].primaryKey {
        assert (p + [cols[n]])[..|p|] == p;
      } else {
        assert p + [] == p;
      }
    }
  }

  const NoForeignKeysLine := "\tThis table has no foreign keys\n"

  /** `ForeignKeys.__str__` reads an attribute the record never defines, so rendering any
      foreign key raises this error. */
  const ForeignKeyStrError := "'ForeignKeys' object has no attribute 'is_reference'"

  function Repeat(s: string, n: nat): string
  {
    if n == 0 then "" else Repeat(s, n - 1) + s
  }

  /** The foreign-key section of a table's text: a fixed line for each entry with an
      empty list; any non-empty list fails on rendering its first foreign key. */
  function ForeignKeySection(d: FkDict): (r: Result<string, string>)
    ensures r.Ok? <==> forall i :: 0 <= i < |d| ==> d[i].1 == []
    ensures r.Ok? ==> r.value == Repeat(NoForeignKeysLine, |d|)
    ensures r.Err? ==> r.error == ForeignKeyStrError
  {
    if d == [] then Ok("")
    else
      match ForeignKeySection(d[..|d| - 1])
      case Err(e) => Err(e)
      case Ok(s) => if d[|d| - 1].1 == [] then Ok(s + NoForeignKeysLine) else Err(ForeignKeyStrError)
  }

  function RowsLine(registries: int): string
  {
    "\tThis tables has " + IntToString(registries) + " rows\n\n"
  }

  /** `str(table)`. The references to the table are not rendered. */
  function TableText(t: Table): Result<string, string>
  {
    match ForeignKeySection(t.foreignKeys)
    case Err(e) => Err(e)
    case Ok(fkText) =>
      Ok("Table name: " + t.tableName + "\n" + ColumnLines(t.columns)
         + "\nForeign key(s):\n" + fkText
         + "\nPrimary key(s):\n" + PrimaryKeyLines(t.columns)
         + RowsLine(t.registries))
  }

  /** The layout of a table's text: a header, the column lines, one fixed line per
      (necessarily empty) foreign-key entry, the primary keys get_primary_keys returns,
      and the row count. Rendering succeeds exactly when every foreign-key list is empty. */
  lemma TableTextLayout(t: Table)
    ensures TableText(t).Ok? <==> forall i :: 0 <= i < |t.foreignKeys| ==> t.foreignKeys[i].1 == []
    ensures TableText(t).Err? ==> TableText(t).error == ForeignKeyStrError
    ensures TableText(t).Ok? ==>
      TableText(t).value ==
        "Table name: " + t.tableName + "\n" + ColumnLines(t.columns)
        + "\nForeign key(s):\n" + Repeat(NoForeignKeysLine, |t.foreignKeys|)
        + "\nPrimary key(s):\n" + NameLines(PrimaryKeys(t.columns))
        + RowsLine(t.registries)
  {
    PrimaryKeyLinesMatchPrimaryKeys(t.columns);
  }

  /** `str(table)`, written as the source writes it: one string extended section by
      section. */
  method TableToString(t: Table) returns (r: Result<string, string>)
    ensures r == TableText(t)
  {
    var result := "Table name: " + t.tableName + "\n";
    var columnLines := RenderColumnLines(t.columns);
    result := result + columnLines;
    result := result + "\nForeign key(s):\n";
    var fkText := RenderForeignKeySection(t.foreignKeys);
    if fkText.Err? {
      return Err(fkText.error);
    }
    result := result + fkText.value;
    result := result + "\nPrimary key(s):\n";
    var primaryLines := RenderPrimaryKeyLines(t.columns);
    result := result + primaryLines;
    result := result + RowsLine(t.registries);
    r := Ok(result);
  }

  /** The loop over the columns dict. */
  method RenderColumnLines(cols: seq<Column>) returns (s: string)
    ensures s == ColumnLines(cols)
  {
    s := "";
    var i := 0;
    while i < |cols|
      invariant 0 <= i <= |cols|
      invariant s == ColumnLines(cols[..i])
    {
      assert cols[..i + 1][..i] == cols[..i];
      s := s + "\t" + ColumnText(cols[i]) + "\n";
      i := i + 1;
    }
    assert cols[..i] == cols;
  }

  /** The loop over the foreign-key dict; the first foreign key it renders fails. */
  method RenderForeignKeySection(d: FkDict) returns (r: Result<string, string>)
    ensures r == ForeignKeySection(d)
  {
    var s := "";
    var k := 0;
    while k < |d|
      invariant 0 <= k <= |d|
      invariant ForeignKeySection(d[..k]) == Ok(s)
    {
      assert d[..k + 1][..k] == d[..k];
      if |d[k].1| == 0 {
        s := s + NoForeignKeysLine;
      } else {
        return Err(ForeignKeyStrError);
      }
      k := k + 1;
    }
    assert d[..k] == d;
    r := Ok(s);
  }

  /** The second loop over the columns dict. */
  method RenderPrimaryKeyLines(cols: seq<Column>) returns (s: string)
    ensures s == PrimaryKeyLines(cols)
  {
    s := "";
    var j := 0;
    while j < |cols|
      invariant 0 <= j <= |cols|
      invariant s == PrimaryKeyLines(cols[..j])
    {
      assert cols[..j + 1][..j] == cols[..j];
      if cols[j].primaryKey {
        s := s + "\tPrimary key: " + cols[j].fieldName + "\n";
      }
      j := j + 1;
    }
    assert cols[..j] == cols;
  }

  // ---------------------------------------------------------------------------
  // Loader post-processing: the columns dict and primary-key marking

  /** A row of the column query: (column name, data type). */
  type ColumnRow = (string, string)

  /** Where a field name sits in the columns dict, if anywhere. */
  function IndexOfColumn(cols: seq<Column>, name: string): (r: Option<nat>)
    ensures r.Some? ==> r.value < |cols| && cols[r.value].fieldName == name
    ensures r.None? ==> forall i :: 0 <= i < |cols| ==> cols[i].fieldName != name
  {
    if cols == [] then None
    else if cols[0].fieldName == name then Some(0)
    else match IndexOfColumn(cols[1..], name)
      case None => None
      case Some(i) => Some(i + 1)
  }

  /** `columns[c.field_name] = c`: an existing key keeps its place and gets the new value,
      a new key goes at the end. */
  function PutColumn(cols: seq<Column>, c: Column): (r: seq<Column>)
    requires UniqueNames(cols)
    ensures UniqueNames(r)
    ensures c in r
    ensures forall d :: d in r ==> d == c || (d in cols && d.fieldName != c.fieldName)
    ensures forall d :: d in cols && d.fieldName != c.fieldName ==> d in r
    ensures (exists i :: 0 <= i < |cols| && cols[i].fieldName == c.fieldName) ==>
      |r| == |cols| && forall k :: 0 <= k < |cols| ==> r[k] == (if cols[k].fieldName == c.fieldName then c else cols[k])
    ensures (forall i :: 0 <= i < |cols| ==> cols[i].fieldName != c.fieldName) ==> r == cols + [c]
  {
    match IndexOfColumn(cols, c.fieldName)
    case Some(i) =>
      var r := cols[i := c];
      assert r[i] == c;
      assert forall k :: 0 <= k < |cols| && k != i ==> r[k] == cols[k];
      r
    case None => cols + [c]
  }

  /** The columns dict built from the column rows, every primary-key flag still unset. */
  function ColumnsOf(rows: seq<ColumnRow>): (r: seq<Column>)
    ensures UniqueNames(r)
    ensures forall c :: c in r ==> !c.primaryKey
  {
    if rows == [] then []
    else PutColumn(ColumnsOf(rows[..|rows| - 1]), Column(rows[|rows| - 1].0, rows[|rows| - 1].1, false))
  }

  /** Every column comes from a row, and from the last row with that column name. */
  lemma {:induction false} ColumnsOfFromLastRow(rows: seq<ColumnRow>)
    ensures forall c :: c in ColumnsOf(rows) ==> FromLastRow(rows, c)
  {
    if rows != [] {
      var n := |rows| - 1;
      var prefix := rows[..n];
      ColumnsOfFromLastRow(prefix);
      var last := Column(rows[n].0, rows[n].1, false);
      assert ColumnsOf(rows) == PutColumn(ColumnsOf(prefix), last);
      forall c | c in ColumnsOf(rows)
        ensures FromLastRow(rows, c)
      {
        FromLastRowStep(rows, prefix, ColumnsOf(prefix), c);
      }
    }
  }

  /** Column c is built from some row that no later row renames. */
  predicate FromLastRow(rows: seq<ColumnRow>, c: Column)
  {
    exists j :: 0 <= j < |rows| && rows[j] == (c.fieldName, c.dataType) && LastWithName(rows, j)
  }

  lemma FromLastRowStep(rows: seq<ColumnRow>, prefix: seq<ColumnRow>, cols: seq<Column>, c: Column)
    requires rows != [] && prefix == rows[..|rows| - 1]
    requires forall d :: d in cols ==> FromLastRow(prefix, d)
    requires c == Column(rows[|rows| - 1].0, rows[|rows| - 1].1, false)
             || (c in cols && c.fieldName != rows[|rows| - 1].0)
    ensures FromLastRow(rows, c)
  {
    var n := |rows| - 1;
    if c.fieldName == rows[n].0 {
      assert rows[n] == (c.fieldName, c.dataType) && LastWithName(rows, n);
    } else {
      assert FromLastRow(prefix, c);
      var j :| 0 <= j < |prefix| && prefix[j] == (c.fieldName, c.dataType) && LastWithName(prefix, j);
      assert rows[j] == prefix[j];
      forall k | j < k < |rows|
        ensures rows[k].0 != rows[j].0
      {
        if k < n {
          assert rows[k] == prefix[k];
        }
      }
    }
  }

  /** Every row's column name has a column. */
  lemma {:induction false} ColumnsOfCoversRows(rows: seq<ColumnRow>)
    ensures forall j :: 0 <= j < |rows| ==> exists c :: c in ColumnsOf(rows) && c.fieldName == rows[j].0
  {
    if rows != [] {
      var n := |rows| - 1;
      var prefix := rows[..n];
      ColumnsOfCoversRows(prefix);
      var last := Column(rows[n].0, rows[n].1, false);
      assert ColumnsOf(rows) == PutColumn(ColumnsOf(prefix), last);
      forall j | 0 <= j < |rows|
        ensures exists c :: c in ColumnsOf(rows) && c.fieldName == rows[j].0
      {
        if j < n && rows[j].0 != rows[n].0 {
          assert prefix[j] == rows[j];
          var c :| c in ColumnsOf(prefix) && c.fieldName == prefix[j].0;
          assert c in ColumnsOf(rows);
        } else {
          assert last in ColumnsOf(rows);
        }
      }
    }
  }

  /** The position of the first row with that column name, or the number of rows when
      there is none. */
  function FirstRow(rows: seq<ColumnRow>, name: string): (j: nat)
    ensures j <= |rows|
  {
    if rows == [] then 0
    else
      var n := |rows| - 1;
      var p := FirstRow(rows[..n], name);
      if p < n then p else if rows[n].0 == name then n else |rows|
  }

  /** FirstRow finds a row with the name, and no earlier row has it. */
  lemma {:induction false} FirstRowFirst(rows: seq<ColumnRow>, name: string)
    ensures FirstRow(rows, name) < |rows| ==> rows[FirstRow(rows, name)].0 == name
    ensures forall k :: 0 <= k < FirstRow(rows, name) && k < |rows| ==> rows[k].0 != name
  {
    if rows != [] {
      var n := |rows| - 1;
      FirstRowFirst(rows[..n], name);
      assert forall k :: 0 <= k < n ==> rows[..n][k] == rows[k];
    }
  }

  /** Every column has a row, and the columns come in the order of their first rows. */
  ghost predicate InFirstRowOrder(rows: seq<ColumnRow>, cols: seq<Column>)
  {
    (forall i :: 0 <= i < |cols| ==> FirstRow(rows, cols[i].fieldName) < |rows|)
    && (forall i, j :: 0 <= i < j < |cols| ==> FirstRow(rows, cols[i].fieldName) < FirstRow(rows, cols[j].fieldName))
  }

  /** The columns dict lists the column names in the order of their first rows, as a
      Python dict keeps a key where it was first inserted; every column name has a row. */
  lemma {:induction false} ColumnsOfOrder(rows: seq<ColumnRow>)
    ensures InFirstRowOrder(rows, ColumnsOf(rows))
  {
    if rows != [] {
      var n := |rows| - 1;
      var prefix := rows[..n];
      ColumnsOfOrder(prefix);
      var cols := ColumnsOf(prefix);
      var last := Column(rows[n].0, rows[n].1, false);
      var r := ColumnsOf(rows);
      assert r == PutColumn(cols, last);
      if exists i :: 0 <= i < |cols| && cols[i].fieldName == last.fieldName {
        OrderAfterReplace(rows, prefix, cols, r);
      } else {
        ColumnsOfCoversRows(prefix);
        NewNameHasNoRow(prefix, cols, last.fieldName);
        OrderAfterAppend(rows, prefix, cols, r);
      }
    }
  }

  /** A name no column has is the name of no row. */
  lemma NewNameHasNoRow(rows: seq<ColumnRow>, cols: seq<Column>, name: string)
    requires forall j :: 0 <= j < |rows| ==> exists c :: c in cols && c.fieldName == rows[j].0
    requires forall i :: 0 <= i < |cols| ==> cols[i].fieldName != name
    ensures FirstRow(rows, name) == |rows|
  {
    FirstRowFirst(rows, name);
  }

  /** A row whose name has a column keeps every column's first row and the order. */
  lemma OrderAfterReplace(rows: seq<ColumnRow>, prefix: seq<ColumnRow>, cols: seq<Column>, r: seq<Column>)
    requires rows != [] && prefix == rows[..|rows| - 1] && InFirstRowOrder(prefix, cols)
    requires |r| == |cols| && forall k :: 0 <= k < |cols| ==> r[k].fieldName == cols[k].fieldName
    ensures InFirstRowOrder(rows, r)
  {
    forall k | 0 <= k < |cols|
      ensures FirstRow(rows, r[k].fieldName) == FirstRow(prefix, cols[k].fieldName)
    {
    }
  }

  /** A row with a new name puts its column last, after every earlier first row. */
  lemma OrderAfterAppend(rows: seq<ColumnRow>, prefix: seq<ColumnRow>, cols: seq<Column>, r: seq<Column>)
    requires rows != [] && prefix == rows[..|rows| - 1] && InFirstRowOrder(prefix, cols)
    requires FirstRow(prefix, rows[|rows| - 1].0) == |prefix|
    requires r == cols + [Column(rows[|rows| - 1].0, rows[|rows| - 1].1, false)]
    ensures InFirstRowOrder(rows, r)
  {
    forall k | 0 <= k < |cols|
      ensures FirstRow(rows, r[k].fieldName) == FirstRow(prefix, cols[k].fieldName) < |prefix|
    {
    }
    assert FirstRow(rows, r[|cols|].fieldName) == |prefix|;
  }

  /** A repeated column name keeps the place of its first row and takes the data type of
      its last row. */
  lemma ColumnsOfRepeatedName()
    ensures ColumnsOf([("a", "int"), ("b", "int"), ("a", "text")])
            == [Column("a", "text", false), Column("b", "int", false)]
  {
    var rows: seq<ColumnRow> := [("a", "int"), ("b", "int"), ("a", "text")];
    assert rows[..1][..0] == [] && rows[..2][..1] == rows[..1] && rows[..3][..2] == rows[..2];
    assert ColumnsOf(rows[..1]) == [Column("a", "int", false)];
    assert ColumnsOf(rows[..2]) == [Column("a", "int", false), Column("b", "int", false)];
    assert rows[..3] == rows;
  }

  /** No later row than row j has the same column name. */
  predicate LastWithName(rows: seq<ColumnRow>, j: nat)
    requires j < |rows|
  {
    forall k :: j < k < |rows| ==> rows[k].0 != rows[j].0
  }

  method BuildColumns(rows: seq<ColumnRow>) returns (cols: seq<Column>)
    ensures cols == ColumnsOf(rows)
  {
    cols := [];
    var i := 0;
    while i < |rows|
      invariant 0 <= i <= |rows|
      invariant cols == ColumnsOf(rows[..i])
    {
      assert rows[..i + 1][..i] == rows[..i];
      cols := PutColumn(cols, Column(rows[i].0, rows[i].1, false));
      i := i + 1;
    }
    assert rows[..i] == rows;
  }

  /** The columns after primary-key marking: a column's flag is set when it was set
      before or its name is one of the primary-key names; nothing else changes. */
  function WithPrimaryKeys(cols: seq<Column>, pks: seq<string>): seq<Column>
  {
    seq(|cols|, i requires 0 <= i < |cols| =>
      cols[i].(primaryKey := cols[i].primaryKey || cols[i].fieldName in pks))
  }

  method MarkPrimaryKeys(cols: seq<Column>, pks: seq<string>) returns (r: seq<Column>)
    requires UniqueNames(cols)
    ensures r == WithPrimaryKeys(cols, pks)
  {
    r := cols;
    var k := 0;
    while k < |pks|
      invariant 0 <= k <= |pks|
      invariant |r| == |cols|
      invariant forall i :: 0 <= i < |cols| ==>
        r[i] == cols[i].(primaryKey := cols[i].primaryKey || cols[i].fieldName in pks[..k])
    {
      var name := pks[k];
      assert pks[..k + 1] == pks[..k] + [name];
      var found := IndexOfColumn(r, name);
      if found.Some? {
        var j := found.value;
        r := r[j := r[j].(primaryKey := true)];
      }
      k := k + 1;
    }
    assert pks[..k] == pks;
  }

  /** After loading, the primary-key columns are exactly the loaded columns whose name is
      among the primary-key names. */
  lemma LoadedPrimaryKeys(rows: seq<ColumnRow>, pks: seq<string>)
    ensures var cols := WithPrimaryKeys(ColumnsOf(rows), pks);
      forall c :: c in PrimaryKeys(cols) <==> c in cols && c.fieldName in pks
  {
    var base := ColumnsOf(rows);
    var cols := WithPrimaryKeys(base, pks);
    PrimaryKeysMembers(cols);
    forall c | c in cols
      ensures c.primaryKey <==> c.fieldName in pks
    {
      var i :| 0 <= i < |cols| && cols[i] == c;
      assert base[i] in base;
    }
  }

  /** Every primary-key name that has a column row names a primary-key column after
      loading; names without a row are ignored. */
  lemma LoadedPrimaryKeyNames(rows: seq<ColumnRow>, pks: seq<string>)
    ensures var cols := WithPrimaryKeys(ColumnsOf(rows), pks);
      forall name :: name in pks && (exists j :: 0 <= j < |rows| && rows[j].0 == name) ==>
        exists c :: c in PrimaryKeys(cols) && c.fieldName == name
  {
    var base := ColumnsOf(rows);
    var cols := WithPrimaryKeys(base, pks);
    PrimaryKeysMembers(cols);
    ColumnsOfCoversRows(rows);
    forall name | name in pks && (exists j :: 0 <= j < |rows| && rows[j].0 == name)
      ensures exists c :: c in PrimaryKeys(cols) && c.fieldName == name
    {
      var j :| 0 <= j < |rows| && rows[j].0 == name;
      var d :| d in base && d.fieldName == rows[j].0;
      var i :| 0 <= i < |base| && base[i] == d;
      assert cols[i] in cols;
    }
  }

  // ---------------------------------------------------------------------------
  // Loader post-processing: grouping foreign-key rows

  /** A row of the outgoing foreign-key query: (referencing column, referenced table,
      referenced column). */
  type OutgoingRow = (string, string, string)

  /** A row of the incoming foreign-key query: (referencing table, referencing column,
      referenced table, referenced column). */
  type IncomingRow = (string, string, string, string)

  function OutgoingKey(tableName: string, row: OutgoingRow): ForeignKey
  {
    ForeignKey(referencingColumn := row.0, referencingTable := tableName,
               referenceColumn := row.2, referenceTable := row.1)
  }

  function IncomingKey(row: IncomingRow): ForeignKey
  {
    ForeignKey(referencingColumn := row.1, referencingTable := row.0,
               referenceColumn := row.3, referenceTable := row.2)
  }

  /** Where a key sits in a foreign-key dict, if anywhere. */
  function KeyIndex(d: FkDict, key: string): (r: Option<nat>)
    ensures r.Some? ==> r.value < |d| && d[r.value].0 == key
    ensures r.None? ==> forall i :: 0 <= i < |d| ==> d[i].0 != key
  {
    if d == [] then None
    else if d[0].0 == key then Some(0)
    else match KeyIndex(d[1..], key)
      case None => None
      case Some(i) => Some(i + 1)
  }

  /** `d[key].append(fk)` on a `defaultdict(list)`. */
  function AppendUnder(d: FkDict, key: string, fk: ForeignKey): FkDict
  {
    match KeyIndex(d, key)
    case Some(i) => d[i := (key, d[i].1 + [fk])]
    case None => d + [(key, [fk])]
  }

  /** The one-entry dict the loaders build from a non-empty row list. */
  lemma FlattenSingle(key: string, fks: seq<ForeignKey>)
    ensures Flatten([(key, fks)]) == fks
  {
    assert [(key, fks)][..0] == [];
  }

  method GroupOutgoing(tableName: string, rows: seq<OutgoingRow>) returns (d: FkDict)
    ensures rows == [] ==> d == []
    ensures rows != [] ==> |d| == 1 && d[0].0 == tableName && |d[0].1| == |rows|
    ensures forall i :: 0 <= i < |rows| ==> d[0].1[i] == OutgoingKey(tableName, rows[i])
    ensures forall fk :: fk in Flatten(d) ==> fk.referencingTable == tableName
  {
    d := [];
    var i := 0;
    while i < |rows|
      invariant 0 <= i <= |rows|
      invariant i == 0 ==> d == []
      invariant i > 0 ==> |d| == 1 && d[0].0 == tableName && |d[0].1| == i
      invariant i > 0 ==> forall j :: 0 <= j < i ==> d[0].1[j] == OutgoingKey(tableName, rows[j])
    {
      d := AppendUnder(d, tableName, OutgoingKey(tableName, rows[i]));
      i := i + 1;
    }
    if d != [] {
      FlattenSingle(tableName, d[0].1);
      assert d == [(tableName, d[0].1)];
    }
  }

  method GroupIncoming(tableName: string, rows: seq<IncomingRow>) returns (d: FkDict)
    ensures rows == [] ==> d == []
    ensures rows != [] ==> |d| == 1 && d[0].0 == tableName && |d[0].1| == |rows|
    ensures forall i :: 0 <= i < |rows| ==> d[0].1[i] == IncomingKey(rows[i])
    ensures rows != [] ==> Flatten(d) == d[0].1
  {
    d := [];
    var i := 0;
    while i < |rows|
      invariant 0 <= i <= |rows|
      invariant i == 0 ==> d == []
      invariant i > 0 ==> |d| == 1 && d[0].0 == tableName && |d[0].1| == i
      invariant i > 0 ==> forall j :: 0 <= j < i ==> d[0].1[j] == IncomingKey(rows[j])
    {
      d := AppendUnder(d, tableName, IncomingKey(rows[i]));
      i := i + 1;
    }
    if d != [] {
      FlattenSingle(tableName, d[0].1);
      assert d == [(tableName, d[0].1)];
    }
  }
}
