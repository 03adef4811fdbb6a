/** SQLTokeniser.ts: a character-at-a-time state machine that grows a token one character at
    a time and, after every character, offers the token to the matcher of the component the
    statement is currently looking for. A matcher that accepts fills fields of the statement
    record, may move the cursor to the next component, and empties the token. */
module Tokeniser {
  import opened Wrappers
  import opened Strings
  import opened Lists

  /** The `SQLComponent` the cursor points at. The source stores the cursor as a bit mask
      (`lookingFor`) but only ever assigns one flag to it, so every test `lookingFor & FLAG`
      is a test for one constructor here. */
  datatype Component =
    | StatementType          // STATEMENT_TYPE = 8
    | TableName              // TABLE_NAME = 2
    | ValueList              // VALUE_LIST = 4
    | SetList                // SET = 128
    | RowAlias               // ROW_ALIAS = 16
    | OnDuplicateKeyUpdate   // ON_DUPLICATE_KEY_UPDATE = 64
    | EndOfStatement         // END_OF_STATEMENT = 32

  /** The position of a component along the only path the cursor takes:
      statement type, table name, values or SET list, row alias, ON DUPLICATE KEY UPDATE, end. */
  function Rank(c: Component): nat {
    match c
    case StatementType => 0
    case TableName => 1
    case ValueList => 2
    case SetList => 2
    case RowAlias => 3
    case OnDuplicateKeyUpdate => 4
    case EndOfStatement => 5
  }

  /** The keywords the tokeniser assigns (the enum declares more, none of which is ever assigned). */
  datatype Keyword = Select | Insert | Update | Delete

  /** A snapshot of `ParsedSQLStatement`: `None` is a field that was never assigned. */
  datatype Statement = Statement(
    original: string,
    statementType: Option<Keyword>,
    lookingFor: Component,
    tableName: Option<string>,
    columns: Option<seq<string>>,
    values: seq<string>,
    rowAlias: Option<string>,
    rowAliasColumns: Option<seq<string>>,
    onDuplicateKeyUpdate: Option<map<string, string>>,
    setAssignments: Option<map<string, string>>)

  /** The record `tokenise` starts from. */
  function Initial(sql: string): Statement {
    Statement(sql, None, StatementType, None, None, [], None, None, None, None)
  }

  // -----------------------------------------------------------------------------------------
  // The matchers, as functions of the token and the statement before the call. `None` means
  // the matcher declined and left the statement as it was; `Threw` is `extractKVP` throwing.
  // -----------------------------------------------------------------------------------------

  /** `checkForStatementType`: the whole upper-cased token must be the keyword; only
      `INSERT INTO` moves the cursor on. */
  function MatchStatementType(upper: string, st: Statement): (r: Option<Statement>)
    ensures r.Some? <==> upper in {"SELECT", "INSERT INTO", "UPDATE", "DELETE"}
    ensures r.Some? ==> r.value.lookingFor == (if upper == "INSERT INTO" then TableName else st.lookingFor)
  {
    if upper == "SELECT" then Some(st.(statementType := Some(Select)))
    else if upper == "INSERT INTO" then Some(st.(statementType := Some(Insert), lookingFor := TableName))
    else if upper == "UPDATE" then Some(st.(statementType := Some(Update)))
    else if upper == "DELETE" then Some(st.(statementType := Some(Delete)))
    else None
  }

  /** The table name and the optional column list in front of `VALUES` or `SET`. */
  function WithTarget(st: Statement, parsed: string, next: Component): Statement {
    if Contains(parsed, "(") then
      st.(tableName := Some(Trim(Substring(parsed, 0, IndexOf(parsed, "(")))),
          columns := Some(Csv(Substring(parsed, IndexOf(parsed, "(") + 1, IndexOf(parsed, ")")))),
          lookingFor := next)
    else
      st.(tableName := Some(parsed), lookingFor := next)
  }

  /** `checkForTableName_AndColumns`: fires on the first token whose upper-cased text holds
      `VALUES`, or else `SET` (anywhere, also inside a name). */
  function MatchTableName(upper: string, token: string, st: Statement): (r: Option<Statement>)
    ensures r.Some? ==> st.statementType == Some(Insert) && r.value.tableName.Some?
    ensures r.Some? ==> r.value.lookingFor == ValueList || r.value.lookingFor == SetList
    ensures r.Some? ==> r.value.columns.Some? || r.value.columns == st.columns
    ensures r.Some? ==> r.value == st.(tableName := r.value.tableName, columns := r.value.columns, lookingFor := r.value.lookingFor)
  {
    if st.statementType != Some(Insert) then None
    else if Contains(upper, "VALUES") then
      Some(WithTarget(st, Trim(Substring(token, 0, IndexOf(upper, "VALUES"))), ValueList))
    else if Contains(upper, "SET") then
      Some(WithTarget(st, Trim(Substring(token, 0, IndexOf(upper, "SET"))), SetList))
    else None
  }

  /** `checkForValues`: fires once the token is a complete parenthesised list. */
  function MatchValues(token: string, st: Statement): (r: Option<Statement>)
    ensures r.Some? ==> st.statementType == Some(Insert) && r.value.values != []
    ensures r.Some? ==> r.value == st.(values := r.value.values, lookingFor := RowAlias)
  {
    if st.statementType != Some(Insert) then None
    else match BalancedList(token)
      case None => None
      case Some(list) =>
        var parsed := Trim(list);
        Some(st.(values := Csv(Substring(parsed, 1, |parsed| - 1)), lookingFor := RowAlias))
  }

  /** The assignment text `checkForSet` cuts from the token: up to the first ` AS`, else up
      to the first ` ON`, else the whole token at the end of the statement. */
  function SetText(upper: string, token: string, isEnd: bool): string {
    if Contains(upper, " AS") then Trim(Substring(token, 0, IndexOf(upper, " AS")))
    else if Contains(upper, " ON") then Trim(Substring(token, 0, IndexOf(upper, " ON")))
    else if isEnd then Trim(token)
    else ""
  }

  /** `checkForSet`: fires when the assignment text is not empty. */
  function MatchSet(upper: string, token: string, st: Statement, isEnd: bool): (r: Result<Option<Statement>>)
    ensures r.Ok? && r.value.Some? ==> st.statementType == Some(Insert) && r.value.value.setAssignments.Some?
    ensures r.Ok? && r.value.Some? ==>
              r.value.value == st.(setAssignments := r.value.value.setAssignments, lookingFor := RowAlias)
  {
    if st.statementType != Some(Insert) then Ok(None)
    else
      var parsed := SetText(upper, token, isEnd);
      if parsed == "" then Ok(None)
      else match Kvp(parsed)
        case None => Threw
        case Some(m) => Ok(Some(st.(setAssignments := Some(m), lookingFor := RowAlias)))
  }

  /** The row alias text: the trimmed token less the first `AS ` and then the first `as `. */
  function AliasText(token: string): string {
    ReplaceFirst(ReplaceFirst(Trim(token), "AS ", ""), "as ", "")
  }

  /** `checkForRowAlias`: fires on a token that starts with ` AS ` (upper case only) and whose
      upper-cased text ends with `ON`. */
  function MatchRowAlias(token: string, st: Statement): (r: Option<Statement>)
    ensures r.Some? ==> r.value.rowAlias.Some?
    ensures r.Some? ==> r.value.rowAliasColumns.Some? || r.value.rowAliasColumns == st.rowAliasColumns
    ensures r.Some? ==> r.value == st.(rowAlias := r.value.rowAlias, rowAliasColumns := r.value.rowAliasColumns,
                                       lookingFor := OnDuplicateKeyUpdate)
  {
    if StartsWith(token, " AS ") && |token| > 4 && EndsWith(ToUpper(token), "ON") then
      var parsed := AliasText(token);
      if Contains(parsed, "(") then
        Some(st.(rowAlias := Some(Trim(Substring(parsed, 0, IndexOf(parsed, "(")))),
                 rowAliasColumns := Some(Csv(Substring(parsed, IndexOf(parsed, "(") + 1, IndexOf(parsed, ")")))),
                 lookingFor := OnDuplicateKeyUpdate))
      else
        Some(st.(rowAlias := Some(Trim(ReplaceFirst(ReplaceFirst(parsed, " ON", ""), " on", ""))),
                 lookingFor := OnDuplicateKeyUpdate))
    else None
  }

  /** `checkForOnDuplicateKeyUpdate`: at the last character, the assignments after the first
      21 characters (`DUPLICATE KEY UPDATE `) of the trimmed token. */
  function MatchOnDuplicateKeyUpdate(token: string, st: Statement, isEnd: bool): (r: Result<Option<Statement>>)
    ensures r.Ok? && r.value.Some? ==> isEnd && r.value.value.onDuplicateKeyUpdate.Some?
    ensures r.Ok? && r.value.Some? ==>
              r.value.value == st.(onDuplicateKeyUpdate := r.value.value.onDuplicateKeyUpdate, lookingFor := EndOfStatement)
  {
    if !isEnd then Ok(None)
    else match Kvp(SubstringFrom(Trim(token), 21))
      case None => Threw
      case Some(m) => Ok(Some(st.(onDuplicateKeyUpdate := Some(m), lookingFor := EndOfStatement)))
  }

  /** Turns a matcher's answer into `processToken`'s: whether the token was consumed, and the
      statement after the call. */
  function Consumed(m: Option<Statement>, st: Statement): (bool, Statement) {
    if m.Some? then (true, m.value) else (false, st)
  }

  /** `processToken`: the matcher of the component under the cursor decides. */
  function Step(token: string, st: Statement, isEnd: bool): Result<(bool, Statement)> {
    var upper := ToUpper(token);
    match st.lookingFor
    case StatementType =>
      if st.statementType.None? then Ok(Consumed(MatchStatementType(upper, st), st)) else Ok((false, st))
    case TableName => Ok(Consumed(MatchTableName(upper, token, st), st))
    case ValueList => Ok(Consumed(MatchValues(token, st), st))
    case SetList =>
      (match MatchSet(upper, token, st, isEnd)
       case Threw => Threw
       case Ok(m) => Ok(Consumed(m, st)))
    case RowAlias => Ok(Consumed(MatchRowAlias(token, st), st))
    case OnDuplicateKeyUpdate =>
      (match MatchOnDuplicateKeyUpdate(token, st, isEnd)
       case Threw => Threw
       case Ok(m) => Ok(Consumed(m, st)))
    case EndOfStatement => Ok((isEnd, st))
  }

  // -----------------------------------------------------------------------------------------
  // The scan
  // -----------------------------------------------------------------------------------------

  /** The scan after some characters: the statement, the tokens consumed so far (a ghost
      record of what the matchers accepted) and the characters not yet consumed. */
  datatype Scan = Scan(statement: Statement, tokens: seq<string>, buffer: string)

  /** The scan of `tokenise` after the first `n` characters of `sql`. */
  function Run(sql: string, n: nat): Result<Scan>
    requires n <= |sql|
  {
    if n == 0 then Ok(Scan(Initial(sql), [], ""))
    else match Run(sql, n - 1)
      case Threw => Threw
      case Ok(sc) => Advance(sc, sql[n - 1], n - 1 == |sql| - 1)
  }

  /** One iteration of the loop of `tokenise`: append the character, offer the token, and
      empty the buffer when the token was consumed. */
  function Advance(sc: Scan, c: char, isEnd: bool): Result<Scan> {
    var token := sc.buffer + [c];
    match Step(token, sc.statement, isEnd)
    case Threw => Threw
    case Ok(res) =>
      if res.0 then Ok(Scan(res.1, sc.tokens + [token], ""))
      else Ok(Scan(res.1, sc.tokens, token))
  }

  /** What `tokenise(sql)` returns. */
  function Tokenised(sql: string): Result<Statement> {
    match Run(sql, |sql|)
    case Threw => Threw
    case Ok(sc) => Ok(sc.statement)
  }

  function Concat(tokens: seq<string>): string {
    if tokens == [] then [] else Concat(tokens[..|tokens| - 1]) + tokens[|tokens| - 1]
  }

  /** Every character is appended to the token exactly once: the consumed tokens and the
      pending buffer, in order, are exactly the characters read so far. */
  lemma {:induction false} RunCoversInput(sql: string, n: nat)
    requires n <= |sql| && Run(sql, n).Ok?
    ensures Concat(Run(sql, n).value.tokens) + Run(sql, n).value.buffer == sql[..n]
  {
    if n > 0 {
      RunCoversInput(sql, n - 1);
      var sc := Run(sql, n - 1).value;
      AdvanceCovers(sc, sql[n - 1], n - 1 == |sql| - 1);
      assert sql[..n] == sql[..n - 1] + [sql[n - 1]];
    }
  }

  /** One iteration moves the character it reads into the buffer or the consumed tokens. */
  lemma AdvanceCovers(sc: Scan, c: char, isEnd: bool)
    requires Advance(sc, c, isEnd).Ok?
    ensures Concat(Advance(sc, c, isEnd).value.tokens) + Advance(sc, c, isEnd).value.buffer == Concat(sc.tokens) + sc.buffer + [c]
  {
    var token := sc.buffer + [c];
    AppendAssociative(Concat(sc.tokens), sc.buffer, [c]);
    if Step(token, sc.statement, isEnd).value.0 {
      var ts := sc.tokens + [token];
      assert ts[..|ts| - 1] == sc.tokens;
      assert Concat(ts) == Concat(sc.tokens) + token;
    }
  }


  /** Once the scan has thrown, it stays thrown. */
  lemma {:induction false} RunThrewStays(sql: string, k: nat, n: nat)
    requires k <= n <= |sql| && Run(sql, k).Threw?
    ensures Run(sql, n).Threw?
    decreases n - k
  {
    if k < n {
      RunThrewStays(sql, k + 1, n);
    }
  }

  /** The scan after `k + 1` characters is one `processToken` step from the scan after `k`. */
  lemma RunStep(sql: string, k: nat)
    requires k < |sql| && Run(sql, k + 1).Ok?
    ensures Run(sql, k).Ok?
    ensures var sc := Run(sql, k).value;
      && Step(sc.buffer + [sql[k]], sc.statement, k == |sql| - 1).Ok?
      && Run(sql, k + 1).value.statement == Step(sc.buffer + [sql[k]], sc.statement, k == |sql| - 1).value.1
  {
  }

  /** One step never moves the cursor back and never changes a statement type once set. */
  lemma StepMonotone(token: string, st: Statement, isEnd: bool)
    requires Step(token, st, isEnd).Ok?
    ensures Rank(Step(token, st, isEnd).value.1.lookingFor) >= Rank(st.lookingFor)
    ensures st.statementType.Some? ==> Step(token, st, isEnd).value.1.statementType == st.statementType
    ensures Step(token, st, isEnd).value.1.original == st.original
  {
    match st.lookingFor {
      case StatementType =>
      case TableName =>
      case ValueList =>
      case SetList =>
      case RowAlias =>
      case OnDuplicateKeyUpdate =>
      case EndOfStatement =>
    }
  }

  /** The cursor and the statement type between the scans after `k` and `k + 1` characters. */
  lemma RunStepMonotone(sql: string, k: nat)
    requires k < |sql| && Run(sql, k + 1).Ok?
    ensures Run(sql, k).Ok?
    ensures Rank(Run(sql, k).value.statement.lookingFor) <= Rank(Run(sql, k + 1).value.statement.lookingFor)
    ensures Run(sql, k).value.statement.statementType.Some? ==>
              Run(sql, k + 1).value.statement.statementType == Run(sql, k).value.statement.statementType
  {
    RunStep(sql, k);
    var sc := Run(sql, k).value;
    StepMonotone(sc.buffer + [sql[k]], sc.statement, k == |sql| - 1);
  }

  /** The cursor only moves forward and the statement type is assigned at most once, along
      the whole scan. */
  lemma {:induction false} RunMonotone(sql: string, k: nat, n: nat)
    requires k <= n <= |sql| && Run(sql, n).Ok?
    ensures Run(sql, k).Ok?
    ensures Rank(Run(sql, k).value.statement.lookingFor) <= Rank(Run(sql, n).value.statement.lookingFor)
    ensures Run(sql, k).value.statement.statementType.Some? ==>
              Run(sql, n).value.statement.statementType == Run(sql, k).value.statement.statementType
    decreases n - k
  {
    if k < n {
      RunMonotone(sql, k + 1, n);
      RunStepMonotone(sql, k);
    }
  }

  /** The record keeps the text it was made from. */
  lemma {:induction false} RunKeepsOriginal(sql: string, n: nat)
    requires n <= |sql| && Run(sql, n).Ok?
    ensures Run(sql, n).value.statement.original == sql
  {
    if n > 0 {
      RunStep(sql, n - 1);
      RunKeepsOriginal(sql, n - 1);
      var sc := Run(sql, n - 1).value;
      StepMonotone(sc.buffer + [sql[n - 1]], sc.statement, n - 1 == |sql| - 1);
    }
  }

  /** How the fields of a statement hang together with its cursor: only an INSERT ever moves
      the cursor; each field is filled by the component that precedes the cursor; the
      ON DUPLICATE KEY UPDATE assignments are filled exactly when the scan reached the end. */
  predicate WellFormed(st: Statement) {
    && (st.lookingFor != StatementType ==> st.statementType == Some(Insert))
    && (st.lookingFor == StatementType ==> st.statementType != Some(Insert))
    && (st.tableName.Some? <==> Rank(st.lookingFor) >= 2)
    && (st.columns.Some? ==> Rank(st.lookingFor) >= 2)
    && (st.values != [] ==> Rank(st.lookingFor) >= 3)
    && (st.setAssignments.Some? ==> Rank(st.lookingFor) >= 3)
    && (st.rowAlias.Some? <==> Rank(st.lookingFor) >= 4)
    && (st.rowAliasColumns.Some? ==> Rank(st.lookingFor) >= 4)
    && (st.onDuplicateKeyUpdate.Some? <==> st.lookingFor == EndOfStatement)
  }

  lemma StepWellFormed(token: string, st: Statement, isEnd: bool)
    requires WellFormed(st) && Step(token, st, isEnd).Ok?
    ensures WellFormed(Step(token, st, isEnd).value.1)
  {
    match st.lookingFor {
      case StatementType =>
      case TableName => TableNameWellFormed(token, st, isEnd);
      case ValueList => ValuesWellFormed(token, st, isEnd);
      case SetList => SetWellFormed(token, st, isEnd);
      case RowAlias => RowAliasWellFormed(token, st, isEnd);
      case OnDuplicateKeyUpdate =>
      case EndOfStatement =>
    }
  }

  lemma TableNameWellFormed(token: string, st: Statement, isEnd: bool)
    requires WellFormed(st) && st.lookingFor == TableName
    ensures WellFormed(Step(token, st, isEnd).value.1)
  {
    var m := MatchTableName(ToUpper(token), token, st);
    assert Step(token, st, isEnd) == Ok(Consumed(m, st));
  }

  lemma ValuesWellFormed(token: string, st: Statement, isEnd: bool)
    requires WellFormed(st) && st.lookingFor == ValueList
    ensures WellFormed(Step(token, st, isEnd).value.1)
  {
    var m := MatchValues(token, st);
    if m.Some? {
      ValuesFilledWellFormed(st, m.value.values);
    }
    assert Step(token, st, isEnd) == Ok(Consumed(m, st));
  }

  /** Filling the values and moving the cursor on to the row alias keeps the record well formed. */
  lemma ValuesFilledWellFormed(st: Statement, values: seq<string>)
    requires WellFormed(st) && st.lookingFor == ValueList && values != []
    ensures WellFormed(st.(values := values, lookingFor := RowAlias))
  {
  }

  lemma SetWellFormed(token: string, st: Statement, isEnd: bool)
    requires WellFormed(st) && st.lookingFor == SetList && Step(token, st, isEnd).Ok?
    ensures WellFormed(Step(token, st, isEnd).value.1)
  {
    var m := MatchSet(ToUpper(token), token, st, isEnd);
    assert Step(token, st, isEnd) == Ok(Consumed(m.value, st));
  }

  lemma RowAliasWellFormed(token: string, st: Statement, isEnd: bool)
    requires WellFormed(st) && st.lookingFor == RowAlias
    ensures WellFormed(Step(token, st, isEnd).value.1)
  {
    var m := MatchRowAlias(token, st);
    assert Step(token, st, isEnd) == Ok(Consumed(m, st));
  }

  /** Every statement the scan passes through is well formed. */
  lemma {:induction false} RunWellFormed(sql: string, n: nat)
    requires n <= |sql| && Run(sql, n).Ok?
    ensures WellFormed(Run(sql, n).value.statement)
  {
    if n > 0 {
      RunStep(sql, n - 1);
      RunWellFormed(sql, n - 1);
      var sc := Run(sql, n - 1).value;
      StepWellFormed(sc.buffer + [sql[n - 1]], sc.statement, n - 1 == |sql| - 1);
    }
  }

  /** A statement that is not an INSERT only ever gets its statement type: the cursor stays
      on STATEMENT_TYPE and no other field is filled. */
  lemma OnlyInsertIsDecoded(sql: string)
    requires Tokenised(sql).Ok? && Tokenised(sql).value.statementType != Some(Insert)
    ensures var st := Tokenised(sql).value;
      st == Initial(sql).(statementType := st.statementType)
  {
    RunWellFormed(sql, |sql|);
    RunKeepsOriginal(sql, |sql|);
  }

  // -----------------------------------------------------------------------------------------
  // The statement record and the operations that update it in place
  // -----------------------------------------------------------------------------------------

  /** `ParsedSQLStatement`, the record the matchers fill in place. */
  class ParsedStatement {
    var original: string
    var statementType: Option<Keyword>
    var lookingFor: Component
    var tableName: Option<string>
    var columns: Option<seq<string>>
    var values: seq<string>
    var rowAlias: Option<string>
    var rowAliasColumns: Option<seq<string>>
    var onDuplicateKeyUpdate: Option<map<string, string>>
    var setAssignments: Option<map<string, string>>

    /** The object literal at the top of `tokenise`. */
    constructor (sql: string)
      ensures Snapshot() == Initial(sql)
    {
      original, statementType, lookingFor := sql, None, StatementType;
      tableName, columns, values := None, None, [];
      rowAlias, rowAliasColumns := None, None;
      onDuplicateKeyUpdate, setAssignments := None, None;
    }

    function Snapshot(): Statement
      reads this
    {
      Statement(original, statementType, lookingFor, tableName, columns, values,
                rowAlias, rowAliasColumns, onDuplicateKeyUpdate, setAssignments)
    }
  }

  /** `checkForStatementType`. */
  method CheckForStatementType(upper: string, statement: ParsedStatement) returns (found: bool)
    modifies statement
    ensures found == MatchStatementType(upper, old(statement.Snapshot())).Some?
    ensures statement.Snapshot() ==
      if found then MatchStatementType(upper, old(statement.Snapshot())).value else old(statement.Snapshot())
  {
    found := true;
    if upper == "SELECT" {
      statement.statementType := Some(Select);
    } else if upper == "INSERT INTO" {
      statement.statementType := Some(Insert);
      statement.lookingFor := TableName;
    } else if upper == "UPDATE" {
      statement.statementType := Some(Update);
    } else if upper == "DELETE" {
      statement.statementType := Some(Delete);
    } else {
      found := false;
    }
  }

  /** The shared tail of both branches of `checkForTableName_AndColumns`. */
  method SetTarget(parsed: string, next: Component, statement: ParsedStatement)
    modifies statement
    ensures statement.Snapshot() == WithTarget(old(statement.Snapshot()), parsed, next)
  {
    ghost var before := statement.Snapshot();
    if Contains(parsed, "(") {
      var name := Trim(Substring(parsed, 0, IndexOf(parsed, "(")));
      var cols := ExtractCSV(Substring(parsed, IndexOf(parsed, "(") + 1, IndexOf(parsed, ")")));
      statement.tableName := Some(name);
      statement.columns := Some(cols);
      statement.lookingFor := next;
      assert statement.Snapshot() == before.(tableName := Some(name), columns := Some(cols), lookingFor := next);
    } else {
      statement.tableName := Some(parsed);
      statement.lookingFor := next;
      assert statement.Snapshot() == before.(tableName := Some(parsed), lookingFor := next);
    }
  }

  /** `checkForTableName_AndColumns`. */
  method CheckForTableNameAndColumns(upper: string, token: string, statement: ParsedStatement)
    returns (found: bool)
    modifies statement
    ensures found == MatchTableName(upper, token, old(statement.Snapshot())).Some?
    ensures statement.Snapshot() ==
      if found then MatchTableName(upper, token, old(statement.Snapshot())).value else old(statement.Snapshot())
  {
    if statement.statementType == Some(Insert) {
      if Contains(upper, "VALUES") {
        SetTarget(Trim(Substring(token, 0, IndexOf(upper, "VALUES"))), ValueList, statement);
        return true;
      } else if Contains(upper, "SET") {
        SetTarget(Trim(Substring(token, 0, IndexOf(upper, "SET"))), SetList, statement);
        return true;
      }
    }
    return false;
  }

  /** `checkForValues`. */
  method CheckForValues(token: string, statement: ParsedStatement) returns (found: bool)
    modifies statement
    ensures found == MatchValues(token, old(statement.Snapshot())).Some?
    ensures statement.Snapshot() ==
      if found then MatchValues(token, old(statement.Snapshot())).value else old(statement.Snapshot())
  {
    if statement.statementType == Some(Insert) {
      var list := ExtractList(token);
      if list.Some? {
        var parsed := Trim(list.value);
        statement.values := ExtractCSV(Substring(parsed, 1, |parsed| - 1));
        statement.lookingFor := RowAlias;
        return true;
      }
    }
    return false;
  }

  /** `checkForSet`; `Threw` when `extractKVP` throws. */
  method CheckForSet(upper: string, token: string, statement: ParsedStatement, isEnd: bool)
    returns (r: Result<bool>)
    modifies statement
    ensures r.Threw? <==> MatchSet(upper, token, old(statement.Snapshot()), isEnd).Threw?
    ensures r.Ok? ==> r.value == MatchSet(upper, token, old(statement.Snapshot()), isEnd).value.Some?
    ensures r.Ok? && r.value ==> statement.Snapshot() == MatchSet(upper, token, old(statement.Snapshot()), isEnd).value.value
    ensures r.Ok? && !r.value ==> statement.Snapshot() == old(statement.Snapshot())
  {
    if statement.statementType == Some(Insert) {
      var parsed := "";
      if Contains(upper, " AS") {
        parsed := Trim(Substring(token, 0, IndexOf(upper, " AS")));
      } else if Contains(upper, " ON") {
        parsed := Trim(Substring(token, 0, IndexOf(upper, " ON")));
      } else if isEnd {
        parsed := Trim(token);
      }
      if parsed != "" {
        var kvp := ExtractKVP(parsed);
        if kvp.None? {
          return Threw;
        }
        statement.setAssignments := kvp;
        statement.lookingFor := RowAlias;
        return Ok(true);
      }
    }
    return Ok(false);
  }

  /** `checkForRowAlias` (its console trace is not modelled). */
  method CheckForRowAlias(token: string, statement: ParsedStatement) returns (found: bool)
    modifies statement
    ensures found == MatchRowAlias(token, old(statement.Snapshot())).Some?
    ensures statement.Snapshot() ==
      if found then MatchRowAlias(token, old(statement.Snapshot())).value else old(statement.Snapshot())
  {
    if StartsWith(token, " AS ") && |token| > 4 && EndsWith(ToUpper(token), "ON") {
      var parsed := ReplaceFirst(ReplaceFirst(Trim(token), "AS ", ""), "as ", "");
      if Contains(parsed, "(") {
        statement.rowAlias := Some(Trim(Substring(parsed, 0, IndexOf(parsed, "("))));
        var cols := ExtractCSV(Substring(parsed, IndexOf(parsed, "(") + 1, IndexOf(parsed, ")")));
        statement.rowAliasColumns := Some(cols);
      } else {
        statement.rowAlias := Some(Trim(ReplaceFirst(ReplaceFirst(parsed, " ON", ""), " on", "")));
      }
      statement.lookingFor := OnDuplicateKeyUpdate;
      return true;
    }
    return false;
  }

  /** `checkForOnDuplicateKeyUpdate`; `Threw` when `extractKVP` throws. */
  method CheckForOnDuplicateKeyUpdate(token: string, statement: ParsedStatement, isEnd: bool)
    returns (r: Result<bool>)
    modifies statement
    ensures r.Threw? <==> MatchOnDuplicateKeyUpdate(token, old(statement.Snapshot()), isEnd).Threw?
    ensures r.Ok? ==> r.value == MatchOnDuplicateKeyUpdate(token, old(statement.Snapshot()), isEnd).value.Some?
    ensures r.Ok? && r.value ==>
              statement.Snapshot() == MatchOnDuplicateKeyUpdate(token, old(statement.Snapshot()), isEnd).value.value
    ensures r.Ok? && !r.value ==> statement.Snapshot() == old(statement.Snapshot())
  {
    ghost var before := statement.Snapshot();
    if isEnd {
      var kvp := ExtractKVP(SubstringFrom(Trim(token), 21));
      if kvp.None? {
        return Threw;
      }
      statement.onDuplicateKeyUpdate := kvp;
      statement.lookingFor := EndOfStatement;
      assert statement.Snapshot() == before.(onDuplicateKeyUpdate := kvp, lookingFor := EndOfStatement);
      return Ok(true);
    }
    return Ok(false);
  }

  /** `processToken`: whether the token was consumed, or `Threw`. */
  method ProcessToken(token: string, statement: ParsedStatement, isEnd: bool) returns (r: Result<bool>)
    modifies statement
    ensures r.Threw? <==> Step(token, old(statement.Snapshot()), isEnd).Threw?
    ensures r.Ok? ==> Step(token, old(statement.Snapshot()), isEnd).value == (r.value, statement.Snapshot())
  {
    var upper := ToUpper(token);
    var found := false;
    match statement.lookingFor {
    case StatementType =>
      if statement.statementType.None? {
        found := CheckForStatementType(upper, statement);
      }
    case TableName =>
      found := CheckForTableNameAndColumns(upper, token, statement);
    case ValueList =>
      found := CheckForValues(token, statement);
    case SetList =>
      r := CheckForSet(upper, token, statement, isEnd);
      if r.Threw? {
        return;
      }
      found := r.value;
    case RowAlias =>
      found := CheckForRowAlias(token, statement);
    case OnDuplicateKeyUpdate =>
      r := CheckForOnDuplicateKeyUpdate(token, statement, isEnd);
      if r.Threw? {
        return;
      }
      found := r.value;
    case EndOfStatement =>
      found := isEnd;
    }
    r := Ok(found);
  }

  /** `tokenise`: the statement record after the whole text, or `Threw`. */
  method Tokenise(sql: string) returns (r: Result<Statement>)
    ensures r == Tokenised(sql)
  {
    var currentToken := "";
    var statement := new ParsedStatement(sql);
    ghost var tokens: seq<string> := [];
    for i := 0 to |sql|
      invariant Run(sql, i) == Ok(Scan(statement.Snapshot(), tokens, currentToken))
    {
      var c := sql[i];
      ghost var before := Scan(statement.Snapshot(), tokens, currentToken);
      currentToken := currentToken + [c];
      var consumed := ProcessToken(currentToken, statement, i == |sql| - 1);
      assert Run(sql, i + 1) == Advance(before, c, i == |sql| - 1);
      if consumed.Threw? {
        RunThrewStays(sql, i + 1, |sql|);
        return Threw;
      }
      if consumed.value {
        tokens := tokens + [currentToken];
        currentToken := "";
      }
    }
    return Ok(statement.Snapshot());
  }

  /** What `parseStatements` returns: one record per statement, or `Threw` as soon as one throws. */
  function TokenisedAll(sqls: seq<string>): (r: Result<seq<Statement>>)
    ensures r.Ok? ==> |r.value| == |sqls|
    ensures r.Ok? ==> forall i :: 0 <= i < |sqls| ==> Tokenised(sqls[i]) == Ok(r.value[i])
    ensures r.Threw? <==> exists i :: 0 <= i < |sqls| && Tokenised(sqls[i]).Threw?
  {
    if sqls == [] then Ok([])
    else match Tokenised(sqls[0])
      case Threw => Threw
      case Ok(st) =>
        match TokenisedAll(sqls[1..])
        case Threw => Threw
        case Ok(rest) => Ok([st] + rest)
  }

  /** `parseStatements`. */
  method ParseStatements(sqls: seq<string>) returns (r: Result<seq<Statement>>)
    ensures r == TokenisedAll(sqls)
  {
    var parsed: seq<Statement> := [];
    for i := 0 to |sqls|
      invariant |parsed| == i
      invariant forall j :: 0 <= j < i ==> Tokenised(sqls[j]) == Ok(parsed[j])
    {
      var st := Tokenise(sqls[i]);
      if st.Threw? {
        return Threw;
      }
      parsed := parsed + [st.value];
    }
    var all := TokenisedAll(sqls);
    assert all.Ok? && |all.value| == |parsed|;
    assert forall j :: 0 <= j < |sqls| ==> all.value[j] == parsed[j];
    assert all.value == parsed;
    return Ok(parsed);
  }
}
