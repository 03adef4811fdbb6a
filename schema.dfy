/** The table-metadata side of sql.ts: the MySQL type families (sql.ts:193-215), the column
    record built from an `INFORMATION_SCHEMA.COLUMNS` row (sql.ts:172-183), the check that a
    decoded value list fits the columns (sql.ts:402-432) and the primary-key-null decision of
    `processInsert` (sql.ts:292-300). The queries that fetch the rows are not modelled: the
    rows are inputs. */
module Schema {
  import opened Wrappers
  import opened Strings
  import opened Interfaces
  import opened Logging

  // -----------------------------------------------------------------------------------------
  // getMySQLDataTypes_ByPrimitive
  // -----------------------------------------------------------------------------------------

  const StringTypes: seq<string> := ["char", "varchar", "tinytext", "text", "mediumtext", "longtext", "binary", "varbinary", "tinyblob", "mediumblob", "longblob", "enum", "set"]
  const NumberTypes: seq<string> := ["tinyint", "smallint", "mediumint", "int", "integer", "bigint", "float", "double", "decimal", "numeric"]
  const BooleanTypes: seq<string> := ["bit"]
  const DateTypes: seq<string> := ["date", "time", "datetime", "timestamp", "year"]

  /** The four names the switch knows. */
  predicate IsPrimitive(primitiveType: string) {
    primitiveType == "string" || primitiveType == "number" || primitiveType == "boolean" || primitiveType == "date"
  }

  /** `getMySQLDataTypes_ByPrimitive`: the engine types of one family; any other name gives the
      empty list. */
  function TypesOf(primitiveType: string): (r: seq<string>)
    ensures r != [] <==> IsPrimitive(primitiveType)
  {
    if primitiveType == "string" then StringTypes
    else if primitiveType == "number" then NumberTypes
    else if primitiveType == "boolean" then BooleanTypes
    else if primitiveType == "date" then DateTypes
    else []
  }

  lemma StringNotNumber(t: string) requires t in StringTypes ensures t !in NumberTypes {}
  lemma StringNotBoolean(t: string) requires t in StringTypes ensures t !in BooleanTypes {}
  lemma StringNotDate(t: string) requires t in StringTypes ensures t !in DateTypes {}
  lemma NumberNotBoolean(t: string) requires t in NumberTypes ensures t !in BooleanTypes {}
  lemma NumberNotDate(t: string) requires t in NumberTypes ensures t !in DateTypes {}
  lemma BooleanNotDate(t: string) requires t in BooleanTypes ensures t !in DateTypes {}

  /** No engine type belongs to two families. */
  lemma TypeFamiliesDisjoint(p: string, q: string, t: string)
    requires p != q
    ensures !(t in TypesOf(p) && t in TypesOf(q))
  {
    if t in StringTypes {
      StringNotNumber(t);
      StringNotBoolean(t);
      StringNotDate(t);
    } else if t in NumberTypes {
      NumberNotBoolean(t);
      NumberNotDate(t);
    } else if t in BooleanTypes {
      BooleanNotDate(t);
    }
  }

  /** Every family lists each type once. */
  lemma TypeFamiliesDuplicateFree(p: string)
    ensures forall i, j :: 0 <= i < j < |TypesOf(p)| ==> TypesOf(p)[i] != TypesOf(p)[j]
  {
  }

  // -----------------------------------------------------------------------------------------
  // The column record of getTableMetadata
  // -----------------------------------------------------------------------------------------

  /** One row of `INFORMATION_SCHEMA.COLUMNS` as the query selects it. */
  datatype ColumnRow = ColumnRow(
    columnName: string,
    ordinalPosition: int,
    columnDefault: Option<string>,
    isNullable: string,              // "YES" or "NO"
    dataType: string,
    characterMaximumLength: Option<int>,
    numericPrecision: Option<int>,
    columnType: string,
    columnKey: string,
    extra: string)

  /** JavaScript's `Boolean(s)` on a string: true for every non-empty text. */
  predicate JsBoolean(s: string) {
    s != []
  }

  /** The column exactly as sql.ts:172-183 builds it: `nullable` is `Boolean(IS_NULLABLE)`. */
  function ColumnOfRowAsWritten(row: ColumnRow): (c: Column)
    ensures c.nullable <==> row.isNullable != []
    ensures c.ordinal == row.ordinalPosition - 1
  {
    Column(row.columnName, row.ordinalPosition - 1, row.columnDefault, JsBoolean(row.isNullable), ToLower(row.dataType),
      row.characterMaximumLength, row.numericPrecision, row.columnType, row.columnKey, row.extra)
  }

  /** The server fills the column itself when it is given null. */
  predicate AutoIncrement(row: ColumnRow) {
    Contains(row.extra, "auto_increment")
  }

  /** The column with `nullable` read as intended: a null value may be given when the column
      is nullable (`YES`), or when the server generates its value, as for the null key of
      `insert into roles values (null, ...)` which is meant to reach the record lookup. */
  function ColumnOfRow(row: ColumnRow): (c: Column)
    ensures c.nullable <==> row.isNullable == "YES" || AutoIncrement(row)
    ensures c.ordinal == row.ordinalPosition - 1
    ensures c == ColumnOfRowAsWritten(row).(nullable := row.isNullable == "YES" || AutoIncrement(row))
  {
    Column(row.columnName, row.ordinalPosition - 1, row.columnDefault, row.isNullable == "YES" || AutoIncrement(row),
      ToLower(row.dataType), row.characterMaximumLength, row.numericPrecision, row.columnType, row.columnKey, row.extra)
  }

  /** The table `getTableMetadata` reports, its columns in row order, built as written. */
  function TableOfAsWritten(name: string, rows: seq<ColumnRow>, rowCount: int): (t: Table)
    ensures t.name == name && |t.columns| == |rows| && t.rowCount == rowCount
    ensures forall i :: 0 <= i < |rows| ==> t.columns[i] == ColumnOfRowAsWritten(rows[i])
  {
    Table(name, seq(|rows|, i requires 0 <= i < |rows| => ColumnOfRowAsWritten(rows[i])), rowCount)
  }

  /** The same table with every column read as intended. */
  function TableOf(name: string, rows: seq<ColumnRow>, rowCount: int): (t: Table)
    ensures t.name == name && |t.columns| == |rows| && t.rowCount == rowCount
    ensures forall i :: 0 <= i < |rows| ==> t.columns[i] == ColumnOfRow(rows[i])
  {
    Table(name, seq(|rows|, i requires 0 <= i < |rows| => ColumnOfRow(rows[i])), rowCount)
  }

  /** As written, a `NOT NULL` column (`IS_NULLABLE` is `NO`) is read as nullable. */
  lemma NotNullReadAsNullable(row: ColumnRow)
    requires row.isNullable == "NO" && !AutoIncrement(row)
    ensures ColumnOfRowAsWritten(row).nullable
    ensures !ColumnOfRow(row).nullable
  {
  }

  // -----------------------------------------------------------------------------------------
  // checkValuesMatch_SQLDataType
  // -----------------------------------------------------------------------------------------

  /** `values[i]`: `None` past the end (`undefined`). */
  function ValueAt(values: seq<SqlValue>, i: nat): (v: Option<SqlValue>)
    ensures v.Some? <==> i < |values|
  {
    if i < |values| then Some(values[i]) else None
  }

  /** Whether the column takes the value, stated family by family: a missing or null value
      needs a nullable column, a text a string type, a number a number type, a boolean `bit`. */
  predicate Accepts(c: Column, v: Option<SqlValue>) {
    match v
    case None => c.nullable
    case Some(Null) => c.nullable
    case Some(Str(_)) => c.dataType in StringTypes
    case Some(Num(_)) => c.dataType in NumberTypes
    case Some(Bool(_)) => c.dataType in BooleanTypes
  }

  /** The message one column contributes, if any (sql.ts:408-423). */
  function ColumnError(c: Column, v: Option<SqlValue>): (r: Option<string>)
    ensures r.None? <==> Accepts(c, v)
  {
    if v.None? || v.value.Null? then
      if !c.nullable then Some("Value for column " + c.name + " is missing") else None
    else if v.value.Str? && c.dataType !in TypesOf("string") then
      Some("Value for column " + c.name + " is a string but the column type is " + c.dataType)
    else if v.value.Num? && c.dataType !in TypesOf("number") then
      Some("Value for column " + c.name + " is a number but the column type is " + c.dataType)
    else if v.value.Bool? && c.dataType !in TypesOf("boolean") then
      Some("Value for column " + c.name + " is a boolean but the column type is " + c.dataType)
    else None
  }

  /** The messages gathered for the first `n` columns, in column order. */
  function Errors(columns: seq<Column>, values: seq<SqlValue>, n: nat): seq<string>
    requires n <= |columns|
  {
    if n == 0 then []
    else
      var e := ColumnError(columns[n - 1], ValueAt(values, n - 1));
      Errors(columns, values, n - 1) + (if e.Some? then [e.value] else [])
  }

  /** No message exactly when every one of the first `n` columns accepts its value. */
  lemma {:induction false} ErrorsEmptyIff(columns: seq<Column>, values: seq<SqlValue>, n: nat)
    requires n <= |columns|
    ensures Errors(columns, values, n) == [] <==> forall i :: 0 <= i < n ==> Accepts(columns[i], ValueAt(values, i))
  {
    if n > 0 {
      ErrorsEmptyIff(columns, values, n - 1);
    }
  }

  /** Every failing column contributes its own message, no column two, and none is skipped:
      the check runs to the last column. */
  lemma ErrorsPerColumn(columns: seq<Column>, values: seq<SqlValue>, n: nat)
    requires n <= |columns|
    ensures |Errors(columns, values, n)| <= n
    ensures forall i :: 0 <= i < n && !Accepts(columns[i], ValueAt(values, i)) ==>
      ColumnError(columns[i], ValueAt(values, i)).value in Errors(columns, values, n)
    ensures forall m :: m in Errors(columns, values, n) ==> exists i :: 0 <= i < n && GivenBy(columns, values, i, m)
    ensures |Errors(columns, values, n)| == |set i | 0 <= i < n && !Accepts(columns[i], ValueAt(values, i))|
  {
    FailingColumnsReported(columns, values, n);
    ErrorsFromFailingColumns(columns, values, n);
    FailingColumnsCount(columns, values, n);
  }

  /** Every failing column among the first `n` has its message gathered. */
  lemma {:induction false} FailingColumnsReported(columns: seq<Column>, values: seq<SqlValue>, n: nat)
    requires n <= |columns|
    ensures |Errors(columns, values, n)| <= n
    ensures forall i :: 0 <= i < n && !Accepts(columns[i], ValueAt(values, i)) ==>
      ColumnError(columns[i], ValueAt(values, i)).value in Errors(columns, values, n)
  {
    if n > 0 {
      FailingColumnsReported(columns, values, n - 1);
    }
  }

  /** Message `m` is the one column `i` gives for its value, and the column fails. */
  predicate GivenBy(columns: seq<Column>, values: seq<SqlValue>, i: nat, m: string)
    requires i < |columns|
  {
    !Accepts(columns[i], ValueAt(values, i)) && m == ColumnError(columns[i], ValueAt(values, i)).value
  }

  /** Each message of the first `n` columns is the one some failing column among them gives. */
  lemma {:induction false} ErrorsFromFailingColumns(columns: seq<Column>, values: seq<SqlValue>, n: nat)
    requires n <= |columns|
    ensures forall m :: m in Errors(columns, values, n) ==> exists i :: 0 <= i < n && GivenBy(columns, values, i, m)
  {
    if n > 0 {
      ErrorsFromFailingColumns(columns, values, n - 1);
      var prefix := Errors(columns, values, n - 1);
      forall m | m in Errors(columns, values, n)
        ensures exists i :: 0 <= i < n && GivenBy(columns, values, i, m)
      {
        if m in prefix {
          var i :| 0 <= i < n - 1 && GivenBy(columns, values, i, m);
        } else {
          assert GivenBy(columns, values, n - 1, m);
        }
      }
    } else {
      assert Errors(columns, values, 0) == [];
    }
  }

  /** One message per failing column: the count of messages grows by one exactly when the
      next column fails. */
  lemma {:induction false} FailingColumnsCount(columns: seq<Column>, values: seq<SqlValue>, n: nat)
    requires n <= |columns|
    ensures |Errors(columns, values, n)| == |set i | 0 <= i < n && !Accepts(columns[i], ValueAt(values, i))|
  {
    var after := set i | 0 <= i < n && !Accepts(columns[i], ValueAt(values, i));
    if n == 0 {
      assert after == {};
    } else {
      FailingColumnsCount(columns, values, n - 1);
      var before := set i | 0 <= i < n - 1 && !Accepts(columns[i], ValueAt(values, i));
      if Accepts(columns[n - 1], ValueAt(values, n - 1)) {
        assert after == before;
      } else {
        assert after == before + {n - 1};
      }
    }
  }

  /** A null or missing value fails only a column that is not nullable. */
  lemma MissingFailsOnlyNotNull(c: Column, v: Option<SqlValue>)
    requires v.None? || v == Some(Null)
    ensures ColumnError(c, v).Some? <==> !c.nullable
  {
  }

  /** A date, time or year column accepts no decoded value but null: the families are apart. */
  lemma DateColumnsTakeNoLiteral(c: Column, v: SqlValue)
    requires c.dataType in TypesOf("date") && !v.Null?
    ensures !Accepts(c, Some(v))
  {
    TypeFamiliesDisjoint("date", "string", c.dataType);
    TypeFamiliesDisjoint("date", "number", c.dataType);
    TypeFamiliesDisjoint("date", "boolean", c.dataType);
  }

  /** Values past the last column are never looked at. */
  lemma {:induction false} ExtraValuesIgnored(columns: seq<Column>, values: seq<SqlValue>, more: seq<SqlValue>, n: nat)
    requires n <= |columns| <= |values|
    ensures Errors(columns, values + more, n) == Errors(columns, values, n)
  {
    if n > 0 {
      ExtraValuesIgnored(columns, values, more, n - 1);
      assert ValueAt(values + more, n - 1) == ValueAt(values, n - 1);
    }
  }

  /** With the columns built as written, no value is ever reported missing: every column
      reads as nullable. */
  lemma {:induction false} AsWrittenNeverMissing(rows: seq<ColumnRow>, values: seq<SqlValue>, n: nat)
    requires n <= |rows|
    requires forall i :: 0 <= i < |rows| ==> rows[i].isNullable == "YES" || rows[i].isNullable == "NO"
    ensures var columns := TableOfAsWritten("", rows, 0).columns;
      forall i :: 0 <= i < n && (ValueAt(values, i).None? || ValueAt(values, i) == Some(Null)) ==>
        Accepts(columns[i], ValueAt(values, i))
  {
  }

  /** The error entries `Log.error` appends for `messages`. */
  function ErrorEntries(messages: seq<string>, index: int, length: int): (r: seq<LogStructure>)
    ensures |r| == |messages|
    ensures forall k :: 0 <= k < |r| ==> r[k].severity == Severity.Error && r[k].message == messages[k] && r[k].payload.None?
  {
    seq(|messages|, k requires 0 <= k < |messages| => LogStructure(Severity.Error, messages[k], None, Progress(index, length)))
  }

  /** Logging one more message appends its entry. */
  lemma ErrorEntriesSnoc(messages: seq<string>, k: nat, index: int, length: int)
    requires k < |messages|
    ensures ErrorEntries(messages[..k + 1], index, length) ==
      ErrorEntries(messages[..k], index, length) + [LogStructure(Severity.Error, messages[k], None, Progress(index, length))]
  {
  }

  /** The body of the first loop of `checkValuesMatch_SQLDataType` for column `i`: the message
      it gathers, if any. */
  method CheckColumn(column: Column, values: seq<SqlValue>, i: nat) returns (message: Option<string>)
    ensures message == ColumnError(column, ValueAt(values, i))
  {
    message := None;
    if i >= |values| || values[i].Null? {
      if !column.nullable {
        message := Some("Value for column " + column.name + " is missing");
      }
    } else if values[i].Str? && column.dataType !in TypesOf("string") {
      message := Some("Value for column " + column.name + " is a string but the column type is " + column.dataType);
    } else if values[i].Num? && column.dataType !in TypesOf("number") {
      message := Some("Value for column " + column.name + " is a number but the column type is " + column.dataType);
    } else if values[i].Bool? && column.dataType !in TypesOf("boolean") {
      message := Some("Value for column " + column.name + " is a boolean but the column type is " + column.dataType);
    }
  }

  /** `checkValuesMatch_SQLDataType`: every column visited, each message logged once in column
      order, and the answer true exactly when every column accepts its value. */
  method CheckValuesMatch(log: Log, table: Table, values: seq<SqlValue>, index: int, length: int) returns (valuesMatch: bool)
    modifies log
    ensures valuesMatch <==> forall i :: 0 <= i < |table.columns| ==> Accepts(table.columns[i], ValueAt(values, i))
    ensures log.messages == old(log.messages) + ErrorEntries(Errors(table.columns, values, |table.columns|), index, length)
  {
    var errorMessages: seq<string> := [];
    valuesMatch := true;
    for i := 0 to |table.columns|
      invariant errorMessages == Errors(table.columns, values, i)
      invariant valuesMatch <==> errorMessages == []
      invariant log.messages == old(log.messages)
    {
      var message := CheckColumn(table.columns[i], values, i);
      if message.Some? {
        errorMessages := errorMessages + [message.value];
        valuesMatch := false;
      }
    }
    ErrorsEmptyIff(table.columns, values, |table.columns|);
    assert ErrorEntries(errorMessages[..0], index, length) == [];
    assert old(log.messages) + [] == old(log.messages);
    if |errorMessages| > 0 {
      for k := 0 to |errorMessages|
        invariant log.messages == old(log.messages) + ErrorEntries(errorMessages[..k], index, length)
      {
        ErrorEntriesSnoc(errorMessages, k, index, length);
        AppendAssociative(old(log.messages), ErrorEntries(errorMessages[..k], index, length),
          [LogStructure(Severity.Error, errorMessages[k], None, Progress(index, length))]);
        log.Error(errorMessages[k], index, length);
      }
      assert errorMessages[..|errorMessages|] == errorMessages;
    }
  }

  // -----------------------------------------------------------------------------------------
  // The primary-key-null decision of processInsert
  // -----------------------------------------------------------------------------------------

  /** `table.columns.filter(column => column.key === 'PRI')`. */
  function PrimaryKeyColumns(columns: seq<Column>): (r: seq<Column>)
    ensures |r| <= |columns|
    ensures forall c :: c in r <==> c in columns && c.key == "PRI"
  {
    if columns == [] then []
    else (if columns[0].key == "PRI" then [columns[0]] else []) + PrimaryKeyColumns(columns[1..])
  }

  /** `values[field.ordinal] === null`: a null literal at that position; a position outside
      the list is `undefined`, which is not `null`. */
  predicate ValueIsNull(values: seq<SqlValue>, field: Column) {
    0 <= field.ordinal < |values| && values[field.ordinal] == Null
  }

  /** The loop over the primary-key fields: true exactly when some key column has a null
      value at its ordinal. */
  method PkFieldsAreNull(table: Table, values: seq<SqlValue>) returns (pkFieldsAreNull: bool)
    ensures pkFieldsAreNull <==> exists c :: c in table.columns && c.key == "PRI" && ValueIsNull(values, c)
  {
    var pkFields := PrimaryKeyColumns(table.columns);
    pkFieldsAreNull := false;
    for i := 0 to |pkFields|
      invariant forall j :: 0 <= j < i ==> !ValueIsNull(values, pkFields[j])
    {
      if 0 <= pkFields[i].ordinal < |values| && values[pkFields[i].ordinal] == Null {
        pkFieldsAreNull := true;
        return;
      }
    }
    forall c | c in table.columns && c.key == "PRI" ensures !ValueIsNull(values, c) {
      var j :| 0 <= j < |pkFields| && pkFields[j] == c;
    }
  }
}
