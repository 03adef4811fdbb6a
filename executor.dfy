/** The statement runner of sql.ts: `processSQLStatement` (sql.ts:50-65) dispatching on the
    first word, `processSelect` (sql.ts:221-228), the existence-gated DDL handlers
    `processCreate`, `processDrop` and `processTruncate` (sql.ts:592-671), and the decisions `processInsert` takes
    (sql.ts:259-300, 387-389). The server is replaced by inputs: the set of table names
    `SHOW TABLES LIKE` finds, the metadata rows of the table, and the error message a query
    fails with, if any. What the runner sends to the server is recorded in `executed`. */
module Executor {
  import opened Wrappers
  import opened Strings
  import opened Interfaces
  import opened Logging
  import opened Schema
  import Words

  /** The server as the runner sees it: the tables that exist, and the statements sent to it
      in order. */
  class Connection {
    const tables: set<string>
    var executed: seq<string>

    constructor (tables: set<string>)
      ensures this.tables == tables && executed == []
    {
      this.tables := tables;
      executed := [];
    }

    /** `connection.query(sql)`: the statement is sent; its answer is an input of the caller. */
    method Query(sql: string)
      modifies this
      ensures executed == old(executed) + [sql]
    {
      executed := executed + [sql];
    }
  }

  function InfoEntry(message: string, index: int, length: int): LogStructure {
    LogStructure(Severity.Info, message, None, Progress(index, length))
  }

  function ErrorEntry(message: string, index: int, length: int): LogStructure {
    LogStructure(Severity.Error, message, None, Progress(index, length))
  }

  /** `parts[k].replace(/`/g, '')`. */
  function TableNameAt(parts: seq<string>, k: nat): string
    requires k < |parts|
  {
    RemoveAll(parts[k], Words.Backtick)
  }

  /** What a DDL handler logs, whether it sends the statement, and whether it throws (a word
      it reads is missing, so `undefined.replace` or `undefined.toLowerCase` throws after the
      first entry is logged). */
  datatype DdlOutcome = DdlOutcome(entries: seq<LogStructure>, executes: bool, threw: bool)

  /** The message logged when the server rejects the statement. */
  function QueryErrorMessage(verb: string, error: string): string {
    "Error " + verb + " table: " + error
  }

  function QueryErrorEntries(verb: string, queryError: Option<string>, index: int, length: int): seq<LogStructure> {
    if queryError.Some? then [ErrorEntry(QueryErrorMessage(verb, queryError.value), index, length)] else []
  }

  /** The entry `processCreate` logs after looking the table up: it names a table or a view,
      and other kinds of object get none. */
  function CreateNotice(createWhat: string, present: bool, tableName: string, index: int, length: int): seq<LogStructure> {
    if createWhat == "table" then
      [InfoEntry((if present then "Table already exists: " else "Creating table: ") + tableName, index, length)]
    else if createWhat == "view" then
      [InfoEntry((if present then "View already exists: " else "Creating view: ") + tableName, index, length)]
    else []
  }

  /** `processCreate`: acts only when the table is absent. */
  function CreateOutcome(sql: string, parts: seq<string>, tables: set<string>, index: int, length: int, queryError: Option<string>): DdlOutcome {
    var first := InfoEntry(Processing("CREATE", sql), index, length);
    if |parts| < 3 then DdlOutcome([first], false, true)
    else
      var tableName := TableNameAt(parts, 2);
      var notice := CreateNotice(ToLower(parts[1]), tableName in tables, tableName, index, length);
      if tableName in tables then DdlOutcome([first] + notice, false, false)
      else DdlOutcome([first] + notice + QueryErrorEntries("creating", queryError, index, length), true, false)
  }

  /** The first entry of every DDL handler. */
  function Processing(command: string, sql: string): string {
    "Processing " + command + " command: " + sql
  }

  /** `processDrop` and `processTruncate`: act only when the table exists. The table name is
      word `k` (2 for `DROP TABLE t`, 1 for `TRUNCATE t`). */
  function RemovalOutcome(command: string, gerund: string, verb: string, k: nat, sql: string, parts: seq<string>,
                          tables: set<string>, index: int, length: int, queryError: Option<string>): DdlOutcome {
    var first := InfoEntry(Processing(command, sql), index, length);
    if |parts| <= k then DdlOutcome([first], false, true)
    else
      var tableName := TableNameAt(parts, k);
      if tableName in tables then
        DdlOutcome([first, InfoEntry("Table exists: " + tableName + "... " + gerund, index, length)]
          + QueryErrorEntries(verb, queryError, index, length), true, false)
      else
        DdlOutcome([first, InfoEntry("Table does not exist: " + tableName, index, length)], false, false)
  }

  function DropOutcome(sql: string, parts: seq<string>, tables: set<string>, index: int, length: int, queryError: Option<string>): DdlOutcome {
    RemovalOutcome("DROP", "Dropping", "dropping", 2, sql, parts, tables, index, length, queryError)
  }

  function TruncateOutcome(sql: string, parts: seq<string>, tables: set<string>, index: int, length: int, queryError: Option<string>): DdlOutcome {
    RemovalOutcome("TRUNCATE", "Truncating", "truncating", 1, sql, parts, tables, index, length, queryError)
  }

  /** The notice of `processCreate`, logged. */
  method LogCreateNotice(log: Log, createWhat: string, present: bool, tableName: string, index: int, length: int)
    modifies log
    ensures log.messages == old(log.messages) + CreateNotice(createWhat, present, tableName, index, length)
  {
    if createWhat == "table" {
      if present {
        log.Info("Table already exists: " + tableName, index, length);
      } else {
        log.Info("Creating table: " + tableName, index, length);
      }
    } else if createWhat == "view" {
      if present {
        log.Info("View already exists: " + tableName, index, length);
      } else {
        log.Info("Creating view: " + tableName, index, length);
      }
    }
  }

  /** The server's answer to a statement sent: an error entry when it rejects it. */
  method LogQueryError(log: Log, verb: string, queryError: Option<string>, index: int, length: int)
    modifies log
    ensures log.messages == old(log.messages) + QueryErrorEntries(verb, queryError, index, length)
  {
    if queryError.Some? {
      log.Error(QueryErrorMessage(verb, queryError.value), index, length);
    }
  }

  method ProcessCreate(log: Log, connection: Connection, sql: string, parts: seq<string>, index: int, length: int, queryError: Option<string>)
    returns (threw: bool)
    modifies log, connection
    ensures var o := CreateOutcome(sql, parts, connection.tables, index, length, queryError);
      && log.messages == old(log.messages) + o.entries
      && connection.executed == old(connection.executed) + (if o.executes then [sql] else [])
      && threw == o.threw
  {
    log.Info(Processing("CREATE", sql), index, length);
    if |parts| < 3 {
      return true;
    }
    ghost var afterFirst := log.messages;
    var createWhat := ToLower(parts[1]);
    var tableName := RemoveAll(parts[2], Words.Backtick);
    var present := tableName in connection.tables;
    LogCreateNotice(log, createWhat, present, tableName, index, length);
    ghost var notice := CreateNotice(createWhat, present, tableName, index, length);
    if !present {
      connection.Query(sql);
      LogQueryError(log, "creating", queryError, index, length);
      assert log.messages == afterFirst + (notice + QueryErrorEntries("creating", queryError, index, length));
    }
    return false;
  }

  method ProcessRemoval(log: Log, connection: Connection, command: string, gerund: string, verb: string, k: nat,
                        sql: string, parts: seq<string>, index: int, length: int, queryError: Option<string>)
    returns (threw: bool)
    modifies log, connection
    ensures var o := RemovalOutcome(command, gerund, verb, k, sql, parts, connection.tables, index, length, queryError);
      && log.messages == old(log.messages) + o.entries
      && connection.executed == old(connection.executed) + (if o.executes then [sql] else [])
      && threw == o.threw
  {
    log.Info(Processing(command, sql), index, length);
    if |parts| <= k {
      return true;
    }
    var tableName := RemoveAll(parts[k], Words.Backtick);
    if tableName in connection.tables {
      log.Info("Table exists: " + tableName + "... " + gerund, index, length);
      connection.Query(sql);
      LogQueryError(log, verb, queryError, index, length);
    } else {
      log.Info("Table does not exist: " + tableName, index, length);
    }
    return false;
  }

  // -----------------------------------------------------------------------------------------
  // What the DDL handlers promise
  // -----------------------------------------------------------------------------------------

  /** CREATE sends the statement exactly when the table is absent; DROP and TRUNCATE exactly
      when it exists. */
  lemma DdlGatedByExistence(sql: string, parts: seq<string>, tables: set<string>, index: int, length: int, queryError: Option<string>)
    ensures CreateOutcome(sql, parts, tables, index, length, queryError).executes <==> |parts| >= 3 && TableNameAt(parts, 2) !in tables
    ensures DropOutcome(sql, parts, tables, index, length, queryError).executes <==> |parts| >= 3 && TableNameAt(parts, 2) in tables
    ensures TruncateOutcome(sql, parts, tables, index, length, queryError).executes <==> |parts| >= 2 && TableNameAt(parts, 1) in tables
  {
  }

  /** Every handler first logs that it is processing the statement; then DROP and TRUNCATE log
      one more info entry, which says whether they act, and an error entry when the server
      rejects the statement. */
  lemma RemovalEntries(command: string, gerund: string, verb: string, k: nat, sql: string, parts: seq<string>,
                       tables: set<string>, index: int, length: int, queryError: Option<string>)
    requires |parts| > k
    ensures var o := RemovalOutcome(command, gerund, verb, k, sql, parts, tables, index, length, queryError);
      && |o.entries| == 2 + (if o.executes && queryError.Some? then 1 else 0)
      && o.entries[0] == InfoEntry(Processing(command, sql), index, length)
      && o.entries[1].severity == Severity.Info
      && (o.executes <==> StartsWith(o.entries[1].message, "Table exists: "))
      && forall j :: 0 <= j < |o.entries| ==> (o.entries[j].severity == Severity.Error <==> j == 2)
  {
    var o := RemovalOutcome(command, gerund, verb, k, sql, parts, tables, index, length, queryError);
    var tableName := TableNameAt(parts, k);
    var m := o.entries[1].message;
    if o.executes {
      assert m == "Table exists: " + tableName + "... " + gerund;
      assert m[..14] == "Table exists: ";
    } else {
      assert m == "Table does not exist: " + tableName;
      assert m[..14] != "Table exists: " by {
        assert m[6] == 'd' && "Table exists: "[6] == 'e';
      }
    }
  }

  /** CREATE logs one entry more for a table or a view, none for any other object. */
  lemma CreateEntries(sql: string, parts: seq<string>, tables: set<string>, index: int, length: int, queryError: Option<string>)
    requires |parts| >= 3
    ensures var o := CreateOutcome(sql, parts, tables, index, length, queryError);
      var named := ToLower(parts[1]) == "table" || ToLower(parts[1]) == "view";
      && !o.threw
      && o.entries[0] == InfoEntry(Processing("CREATE", sql), index, length)
      && |o.entries| == 1 + (if named then 1 else 0) + (if o.executes && queryError.Some? then 1 else 0)
  {
  }

  /** Too few words: the handler throws after logging its first entry, and sends nothing. */
  lemma MissingWordThrows(sql: string, parts: seq<string>, tables: set<string>, index: int, length: int, queryError: Option<string>)
    ensures |parts| < 3 ==> CreateOutcome(sql, parts, tables, index, length, queryError) == DdlOutcome([InfoEntry(Processing("CREATE", sql), index, length)], false, true)
    ensures |parts| < 3 ==> DropOutcome(sql, parts, tables, index, length, queryError) == DdlOutcome([InfoEntry(Processing("DROP", sql), index, length)], false, true)
    ensures |parts| < 2 ==> TruncateOutcome(sql, parts, tables, index, length, queryError) == DdlOutcome([InfoEntry(Processing("TRUNCATE", sql), index, length)], false, true)
  {
  }

  /** The set of tables once a DDL statement the server accepted has run. */
  function TablesAfter(command: string, tableName: string, tables: set<string>): set<string> {
    if command == "create" then tables + {tableName}
    else if command == "drop" then tables - {tableName}
    else tables
  }

  /** Running the same CREATE or DROP again once the server has accepted it sends nothing the
      second time; TRUNCATE sends it again, since the table stays. */
  lemma SecondRunIsSkipped(sql: string, parts: seq<string>, tables: set<string>, index: int, length: int)
    requires |parts| >= 3
    ensures var name := TableNameAt(parts, 2);
      CreateOutcome(sql, parts, tables, index, length, None).executes ==>
        !CreateOutcome(sql, parts, TablesAfter("create", name, tables), index, length, None).executes
    ensures var name := TableNameAt(parts, 2);
      DropOutcome(sql, parts, tables, index, length, None).executes ==>
        !DropOutcome(sql, parts, TablesAfter("drop", name, tables), index, length, None).executes
    ensures var name := TableNameAt(parts, 1);
      TruncateOutcome(sql, parts, tables, index, length, None).executes ==>
        TruncateOutcome(sql, parts, TablesAfter("truncate", name, tables), index, length, None).executes
  {
  }

  // -----------------------------------------------------------------------------------------
  // processInsert
  // -----------------------------------------------------------------------------------------

  /** Where `processInsert` ends: the table is missing; the statement is not checked (it has a
      SELECT or no values); the values do not fit; or they fit and the record is looked up
      (some key value is null) or the keys were given. The lookup's own query and the inserts
      it would lead to are not modelled. */
  datatype InsertAction = TableMissing | NotChecked | ValuesRejected | LookUpRecord | KeysGiven

  ghost function InsertActionOf(st: InsertStatement, tables: set<string>, table: Table): InsertAction {
    if st.tableName !in tables then TableMissing
    else if st.selectStatement != "" || st.values == [] then NotChecked
    else if !forall i :: 0 <= i < |table.columns| ==> Accepts(table.columns[i], ValueAt(st.values, i)) then ValuesRejected
    else if exists c :: c in table.columns && c.key == "PRI" && ValueIsNull(st.values, c) then LookUpRecord
    else KeysGiven
  }

  /** What `processInsert` logs: the missing table, with the statement as payload, or the
      messages of `checkValuesMatch_SQLDataType` when the values are checked. */
  function InsertEntries(st: InsertStatement, tables: set<string>, table: Table, index: int, length: int): seq<LogStructure> {
    if st.tableName !in tables then
      [LogStructure(Severity.Error, "Table " + st.tableName + " does not exist", Some(st), Progress(index, length))]
    else if st.selectStatement != "" || st.values == [] then []
    else ErrorEntries(Errors(table.columns, st.values, |table.columns|), index, length)
  }

  /** The decisions of `processInsert` on the decoded statement `st`, with the metadata rows of
      its table as input; the table is built as `getTableMetadata` builds it. */
  method DecideInsert(log: Log, st: InsertStatement, tables: set<string>, rows: seq<ColumnRow>, rowCount: int, index: int, length: int)
    returns (action: InsertAction)
    modifies log
    ensures action == InsertActionOf(st, tables, TableOfAsWritten(st.tableName, rows, rowCount))
    ensures log.messages == old(log.messages) + InsertEntries(st, tables, TableOfAsWritten(st.tableName, rows, rowCount), index, length)
    ensures action == TableMissing ==>
      log.messages == old(log.messages) + [LogStructure(Severity.Error, "Table " + st.tableName + " does not exist", Some(st), Progress(index, length))]
    ensures action == ValuesRejected || action == LookUpRecord || action == KeysGiven ==>
      var table := TableOfAsWritten(st.tableName, rows, rowCount);
      log.messages == old(log.messages) + ErrorEntries(Errors(table.columns, st.values, |table.columns|), index, length)
    ensures action == NotChecked ==> log.messages == old(log.messages)
  {
    if st.tableName in tables {
      var table := TableOfAsWritten(st.tableName, rows, rowCount);
      if st.selectStatement == "" && st.values != [] {
        var valuesMatch := CheckValuesMatch(log, table, st.values, index, length);
        if valuesMatch {
          var pkFieldsAreNull := PkFieldsAreNull(table, st.values);
          action := if pkFieldsAreNull then LookUpRecord else KeysGiven;
        } else {
          action := ValuesRejected;
        }
      } else {
        action := NotChecked;
      }
    } else {
      log.Error("Table " + st.tableName + " does not exist", index, length, Some(st));
      action := TableMissing;
    }
  }

  /** `processInsert`: the statement decoded by the word-array decoder, then the decisions.
      `Threw` is the decoder's throw; the record lookup that follows `LookUpRecord` is not
      modelled, nor are the throws it can raise. */
  method ProcessInsert(log: Log, sql: string, tables: set<string>, rows: seq<ColumnRow>, rowCount: int, index: int, length: int)
    returns (r: Result<InsertAction>)
    requires Words.DecodeWords(sql).Some?
    modifies log
    ensures r.Threw? <==> Words.DecodeWords(sql).value.Threw?
    ensures r.Threw? ==> log.messages == old(log.messages)
    ensures r.Ok? ==>
      var st := Words.DecodeWords(sql).value.value;
      var table := TableOfAsWritten(st.tableName, rows, rowCount);
      && r.value == InsertActionOf(st, tables, table)
      && log.messages == old(log.messages) + InsertEntries(st, tables, table, index, length)
  {
    var decoded := Words.DecodeInsertStatement(sql);
    if decoded.Threw? {
      return Threw;
    }
    var action := DecideInsert(log, decoded.value, tables, rows, rowCount, index, length);
    return Ok(action);
  }

  /** With the metadata read as intended, a value left out or null for a `NOT NULL` column the
      server does not fill itself stops the insert. */
  lemma MissingNotNullValueRejected(st: InsertStatement, tables: set<string>, rows: seq<ColumnRow>, rowCount: int, i: nat)
    requires st.tableName in tables && st.selectStatement == "" && st.values != []
    requires i < |rows| && rows[i].isNullable == "NO" && !AutoIncrement(rows[i])
    requires i >= |st.values| || st.values[i] == Null
    ensures InsertActionOf(st, tables, TableOf(st.tableName, rows, rowCount)) == ValuesRejected
  {
    var table := TableOf(st.tableName, rows, rowCount);
    assert !Accepts(table.columns[i], ValueAt(st.values, i));
  }

  /** A null value for an `auto_increment` key reaches the record lookup both as written and
      with the metadata read as intended, when every other column takes its value. */
  lemma NullAutoIncrementKeyLooksUp(st: InsertStatement, tables: set<string>, rows: seq<ColumnRow>, rowCount: int, i: nat)
    requires st.tableName in tables && st.selectStatement == "" && st.values != []
    requires forall j :: 0 <= j < |rows| ==> rows[j].isNullable == "YES" || rows[j].isNullable == "NO"
    requires i < |rows| && rows[i].columnKey == "PRI" && AutoIncrement(rows[i]) && rows[i].ordinalPosition == i + 1
    requires i < |st.values| && st.values[i] == Null
    requires forall j :: 0 <= j < |rows| && j != i ==> Accepts(ColumnOfRow(rows[j]), ValueAt(st.values, j))
    ensures InsertActionOf(st, tables, TableOf(st.tableName, rows, rowCount)) == LookUpRecord
    ensures InsertActionOf(st, tables, TableOfAsWritten(st.tableName, rows, rowCount)) == LookUpRecord
  {
    var table := TableOf(st.tableName, rows, rowCount);
    var written := TableOfAsWritten(st.tableName, rows, rowCount);
    assert table.columns[i] in table.columns && ValueIsNull(st.values, table.columns[i]);
    assert written.columns[i] in written.columns && ValueIsNull(st.values, written.columns[i]);
    forall j | 0 <= j < |rows|
      ensures Accepts(table.columns[j], ValueAt(st.values, j)) && Accepts(written.columns[j], ValueAt(st.values, j))
    {
      if j == i {
        assert ValueAt(st.values, j) == Some(Null);
      }
    }
  }

  /** The statement `insert into roles values (null, 'Dummy Role', 0, 0)` the handler was
      written for, against a table whose `id` key is `NOT NULL auto_increment`: the record is
      looked up, as written and as intended. */
  lemma RolesWithNullKeyLooksUp()
    ensures var rows := [
        ColumnRow("id", 1, None, "NO", "int", None, Some(10), "int", "PRI", "auto_increment"),
        ColumnRow("name", 2, None, "NO", "varchar", Some(50), None, "varchar(50)", "", ""),
        ColumnRow("a", 3, Some("0"), "NO", "tinyint", None, Some(3), "tinyint(1)", "", ""),
        ColumnRow("b", 4, Some("0"), "NO", "tinyint", None, Some(3), "tinyint(1)", "", "")];
      var st := EmptyInsert.(tableName := "roles", values := [Null, Str("'Dummy Role'"), Num("0"), Num("0")]);
      && InsertActionOf(st, {"roles"}, TableOfAsWritten("roles", rows, 0)) == LookUpRecord
      && InsertActionOf(st, {"roles"}, TableOf("roles", rows, 0)) == LookUpRecord
  {
    var rows := [
      ColumnRow("id", 1, None, "NO", "int", None, Some(10), "int", "PRI", "auto_increment"),
      ColumnRow("name", 2, None, "NO", "varchar", Some(50), None, "varchar(50)", "", ""),
      ColumnRow("a", 3, Some("0"), "NO", "tinyint", None, Some(3), "tinyint(1)", "", ""),
      ColumnRow("b", 4, Some("0"), "NO", "tinyint", None, Some(3), "tinyint(1)", "", "")];
    var st := EmptyInsert.(tableName := "roles", values := [Null, Str("'Dummy Role'"), Num("0"), Num("0")]);
    assert Contains("auto_increment", "auto_increment") by {
      assert "auto_increment"[0..14] == "auto_increment";
    }
    assert ToLower("int") == "int";
    assert ToLower("varchar") == "varchar";
    assert ToLower("tinyint") == "tinyint";
    NullAutoIncrementKeyLooksUp(st, {"roles"}, rows, 0, 0);
  }

  /** Values that fit and supply every key go on without a lookup. */
  lemma KeysGivenWhenNoKeyIsNull(st: InsertStatement, tables: set<string>, table: Table)
    requires InsertActionOf(st, tables, table) == KeysGiven
    ensures forall c :: c in table.columns && c.key == "PRI" ==> !ValueIsNull(st.values, c)
    ensures st.tableName in tables && st.values != []
  {
  }

  // -----------------------------------------------------------------------------------------
  // processSQLStatement
  // -----------------------------------------------------------------------------------------

  /** `sql.split(' ')[0].toLowerCase()`. */
  function Command(sql: string): string {
    ToLower(Split(sql, ' ')[0])
  }

  /** What `processSelect` logs: the error the server answers with, or the results. */
  function SelectEntries(queryError: Option<string>, results: string, index: int, length: int): (r: seq<LogStructure>)
    ensures |r| == 1 && (r[0].severity == Severity.Error <==> queryError.Some?)
  {
    if queryError.Some? then [ErrorEntry("Error executing query: " + queryError.value, index, length)]
    else [InfoEntry("Query Results: " + results, index, length)]
  }

  /** `processSelect`: the statement is sent; a rejection is caught and logged, otherwise the
      results, as text, are logged. */
  method ProcessSelect(log: Log, connection: Connection, sql: string, index: int, length: int,
                       queryError: Option<string>, results: string)
    modifies log, connection
    ensures connection.executed == old(connection.executed) + [sql]
    ensures log.messages == old(log.messages) + SelectEntries(queryError, results, index, length)
  {
    connection.Query(sql);
    if queryError.Some? {
      log.Error("Error executing query: " + queryError.value, index, length);
    } else {
      log.Info("Query Results: " + results, index, length);
    }
  }

  /** `processSQLStatement` for the commands whose handlers act: SELECT, CREATE, DROP,
      TRUNCATE and INSERT; UPDATE, DELETE and ALTER have empty handlers. `queryError` is the
      server's rejection of the statement, if any, and `results` the text of a SELECT's
      answer. */
  method ProcessSQLStatement(log: Log, connection: Connection, sql: string, index: int, length: int,
                             queryError: Option<string>, results: string, rows: seq<ColumnRow>, rowCount: int)
    returns (threw: bool)
    requires Command(sql) == "insert" ==> Words.DecodeWords(sql).Some?
    modifies log, connection
    ensures Command(sql) == "select" ==>
      && log.messages == old(log.messages) + SelectEntries(queryError, results, index, length)
      && connection.executed == old(connection.executed) + [sql] && !threw
    ensures Command(sql) == "create" ==>
      var o := CreateOutcome(sql, Split(sql, ' '), connection.tables, index, length, queryError);
      log.messages == old(log.messages) + o.entries && threw == o.threw
      && connection.executed == old(connection.executed) + (if o.executes then [sql] else [])
    ensures Command(sql) == "drop" ==>
      var o := DropOutcome(sql, Split(sql, ' '), connection.tables, index, length, queryError);
      log.messages == old(log.messages) + o.entries && threw == o.threw
      && connection.executed == old(connection.executed) + (if o.executes then [sql] else [])
    ensures Command(sql) == "truncate" ==>
      var o := TruncateOutcome(sql, Split(sql, ' '), connection.tables, index, length, queryError);
      log.messages == old(log.messages) + o.entries && threw == o.threw
      && connection.executed == old(connection.executed) + (if o.executes then [sql] else [])
    ensures Command(sql) == "insert" ==>
      var decoded := Words.DecodeWords(sql).value;
      && (threw <==> decoded.Threw?)
      && (decoded.Threw? ==> log.messages == old(log.messages))
      && (decoded.Ok? ==>
            var st := decoded.value;
            log.messages == old(log.messages) +
              InsertEntries(st, connection.tables, TableOfAsWritten(st.tableName, rows, rowCount), index, length))
      && connection.executed == old(connection.executed)
    ensures Command(sql) !in {"select", "create", "drop", "truncate", "insert"} ==>
      log.messages == old(log.messages) && connection.executed == old(connection.executed) && !threw
  {
    var parts := Split(sql, ' ');
    var command := ToLower(parts[0]);
    threw := false;
    if command == "select" {
      ProcessSelect(log, connection, sql, index, length, queryError, results);
    } else if command == "insert" {
      var r := ProcessInsert(log, sql, connection.tables, rows, rowCount, index, length);
      threw := r.Threw?;
    } else if command == "create" {
      threw := ProcessCreate(log, connection, sql, parts, index, length, queryError);
    } else if command == "drop" {
      threw := ProcessRemoval(log, connection, "DROP", "Dropping", "dropping", 2, sql, parts, index, length, queryError);
    } else if command == "truncate" {
      threw := ProcessRemoval(log, connection, "TRUNCATE", "Truncating", "truncating", 1, sql, parts, index, length, queryError);
    }
  }
}
