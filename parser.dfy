/** SQLParser.ts: a keyword-search decoder for INSERT statements. It classifies a statement by
    its leading keyword and, for an INSERT, locates `into`, ` values` / ` set`, the column list,
    the row alias (`as`) and the `on duplicate key update` clause by plain substring search. */
module Parser {
  import opened Wrappers
  import opened Strings
  import opened Lists

  /** `StatementType` of SQLParser.ts. */
  datatype Kind = Select | Insert | Update | Delete | CreateTable | DropTable | AlterTable

  datatype Priority = LowPriority | Delayed | HighPriority

  /** `ParsedSQLStatement` of SQLParser.ts. `None` is a field never assigned, except for
      `columns`, where `None` is the explicit `null` the decoder stores. */
  datatype ParsedInsert = ParsedInsert(
    original: string,
    kind: Kind,
    priority: Option<Priority>,
    tableName: Option<string>,
    columns: Option<seq<string>>,
    values: Option<seq<string>>,
    rowAlias: Option<string>,
    rowAliasColumns: Option<seq<string>>,
    onDuplicateKeyUpdate: Option<map<string, string>>,
    setAssignments: Option<map<string, string>>)

  /** The record `decodeInsertStatement` starts from. */
  function Fresh(statement: string): ParsedInsert {
    ParsedInsert(statement, Insert, None, None, None, None, None, None, None, None)
  }

  /** `s.match(/^P/i)` for a pattern of letters, spaces and underscores, given here in lower
      case: ASCII case is ignored. */
  predicate StartsWithIgnoringCase(s: string, lower: string) {
    |lower| <= |s| && ToLower(s[..|lower|]) == lower
  }

  /** A text that starts with a keyword, ignoring case, starts with every prefix of it. */
  lemma StartsWithIgnoringCasePrefix(s: string, lower: string, k: nat)
    requires StartsWithIgnoringCase(s, lower) && k <= |lower|
    ensures StartsWithIgnoringCase(s, lower[..k])
  {
    assert ToLower(s[..k]) == ToLower(s[..|lower|])[..k];
  }

  /** `detectStatementType`: the first leading keyword that matches, ignoring case. */
  function DetectStatementType(statement: string): (r: Option<Kind>)
    ensures r == Some(Insert) <==> !StartsWithIgnoringCase(statement, "select") && StartsWithIgnoringCase(statement, "insert")
    ensures r == None <==>
      && !StartsWithIgnoringCase(statement, "select") && !StartsWithIgnoringCase(statement, "insert")
      && !StartsWithIgnoringCase(statement, "update") && !StartsWithIgnoringCase(statement, "delete")
      && !StartsWithIgnoringCase(statement, "create table") && !StartsWithIgnoringCase(statement, "drop table")
      && !StartsWithIgnoringCase(statement, "alter table")
  {
    if StartsWithIgnoringCase(statement, "select") then Some(Select)
    else if StartsWithIgnoringCase(statement, "insert") then Some(Insert)
    else if StartsWithIgnoringCase(statement, "update") then Some(Update)
    else if StartsWithIgnoringCase(statement, "delete") then Some(Delete)
    else if StartsWithIgnoringCase(statement, "create table") then Some(CreateTable)
    else if StartsWithIgnoringCase(statement, "drop table") then Some(DropTable)
    else if StartsWithIgnoringCase(statement, "alter table") then Some(AlterTable)
    else None
  }

  /** The text less a leading `INSERT ` in any case (`replace(/^INSERT /i, '')`). */
  function StripInsert(statement: string): (r: string)
    ensures StartsWithIgnoringCase(statement, "insert ") ==> statement == statement[..7] + r
    ensures !StartsWithIgnoringCase(statement, "insert ") ==> r == statement
  {
    if StartsWithIgnoringCase(statement, "insert ") then statement[7..] else statement
  }

  /** The priority keyword at the front of the text, if any. */
  function PriorityOf(s: string): Option<Priority> {
    if StartsWithIgnoringCase(s, "high_priority") then Some(HighPriority)
    else if StartsWithIgnoringCase(s, "delayed") then Some(Delayed)
    else if StartsWithIgnoringCase(s, "low_priority") then Some(LowPriority)
    else None
  }

  /** The text after the first `into` (case-sensitive), or `None` when there is none. */
  function AfterInto(statement: string): Option<string> {
    var s := StripInsert(statement);
    var k := IndexOf(s, "into");
    if k == -1 then None else Some(SubstringFrom(s, k + 4))
  }

  // -----------------------------------------------------------------------------------------
  // insertStatementValueOrSetProcessor
  // -----------------------------------------------------------------------------------------

  /** The table name: the text before the column list when it opens before the keyword,
      otherwise the text before the keyword. */
  function TableNameBefore(partial: string, paranIndex: int, keywordIndex: int): string {
    if paranIndex != -1 && paranIndex < keywordIndex then Trim(Substring(partial, 0, paranIndex))
    else Trim(Substring(partial, 0, keywordIndex))
  }

  /** The clause after ` values` (7 characters) or ` set` (4 characters), trimmed. */
  function ClauseAfter(partial: string, isValue: bool, keywordIndex: int): string {
    Trim(SubstringFrom(partial, keywordIndex + (if isValue then 7 else 4)))
  }

  /** Where the value list or the assignments end: at whichever of `as` and
      `on duplicate key update` comes first. */
  function BodyEnd(rowAliasIndex: int, duplicateKeyIndex: int): int {
    if rowAliasIndex > -1 && (duplicateKeyIndex == -1 || rowAliasIndex < duplicateKeyIndex) then rowAliasIndex
    else duplicateKeyIndex
  }

  /** The values (inside the outer parentheses) or the assignments of the clause `vs`,
      either up to `end` or, with no end, the whole clause. */
  function WithBody(p: ParsedInsert, vs: string, isValue: bool, end: Option<int>): Result<ParsedInsert> {
    if isValue then
      Ok(p.(values := Some(Csv(if end.None? then Substring(vs, 1, |vs| - 1) else Substring(vs, 1, end.value - 2)))))
    else match Kvp(if end.None? then vs else Substring(vs, 0, end.value - 1))
      case None => Threw
      case Some(m) => Ok(p.(setAssignments := Some(m)))
  }

  /** The row alias text: from 3 past `as` to `on duplicate key update` when that follows,
      else to the end of the clause. */
  function AliasText(vs: string, rowAliasIndex: int, duplicateKeyIndex: int): string {
    if duplicateKeyIndex != -1 && rowAliasIndex < duplicateKeyIndex then Substring(vs, rowAliasIndex + 3, duplicateKeyIndex)
    else SubstringFrom(vs, rowAliasIndex + 3)
  }

  /** The alias name before its `(` and the alias columns inside the parentheses. */
  function WithAlias(p: ParsedInsert, rowAlias: string): ParsedInsert {
    p.(rowAlias := Some(Trim(Substring(rowAlias, 0, IndexOf(rowAlias, "(")))),
       rowAliasColumns := Some(Csv(Substring(rowAlias, IndexOf(rowAlias, "(") + 1, IndexOf(rowAlias, ")")))))
  }

  /** The ON DUPLICATE KEY UPDATE assignments: from 23 past the phrase (its own length) to
      `as` when that follows, else to the end of the clause. */
  function DuplicateKeyText(vs: string, rowAliasIndex: int, duplicateKeyIndex: int): string {
    if rowAliasIndex != -1 && duplicateKeyIndex < rowAliasIndex then Trim(Substring(vs, duplicateKeyIndex + 23, rowAliasIndex))
    else Trim(SubstringFrom(vs, duplicateKeyIndex + 23))
  }

  /** The clause's `as` position (anywhere, also inside a word), lower-cased search. */
  function RowAliasIndex(vs: string): int {
    IndexOf(ToLower(vs), "as")
  }

  function DuplicateKeyIndex(vs: string): int {
    IndexOf(ToLower(vs), "on duplicate key update")
  }

  /** The ON DUPLICATE KEY UPDATE assignments into the record, when the phrase occurs. */
  function WithDuplicateKey(p: ParsedInsert, vs: string, rowAliasIndex: int, duplicateKeyIndex: int)
    : Result<ParsedInsert>
  {
    if duplicateKeyIndex == -1 then Ok(p)
    else match Kvp(DuplicateKeyText(vs, rowAliasIndex, duplicateKeyIndex))
      case None => Threw
      case Some(m) => Ok(p.(onDuplicateKeyUpdate := Some(m)))
  }

  /** What reading the trimmed clause `vs` leaves in the record: the body, the row alias when
      `as` occurs and the ON DUPLICATE KEY UPDATE assignments when that phrase occurs. */
  function ProcessClause(p: ParsedInsert, vs: string, isValue: bool): Result<ParsedInsert> {
    var ra := RowAliasIndex(vs);
    var dk := DuplicateKeyIndex(vs);
    if ra == -1 && dk == -1 then WithBody(p, vs, isValue, None) else CutClause(p, vs, isValue, ra, dk)
  }

  /** The clause when `as` or `on duplicate key update` occurs: the body up to whichever
      comes first, then the alias and the duplicate-key assignments. */
  function CutClause(p: ParsedInsert, vs: string, isValue: bool, ra: int, dk: int): Result<ParsedInsert> {
    match WithBody(p, vs, isValue, Some(BodyEnd(ra, dk)))
    case Threw => Threw
    case Ok(p2) => WithDuplicateKey(if ra > -1 then WithAlias(p2, AliasText(vs, ra, dk)) else p2, vs, ra, dk)
  }

  /** What `insertStatementValueOrSetProcessor` leaves in the record, or `Threw` when
      `extractKVP` throws. */
  function Process(p: ParsedInsert, partial: string, isValue: bool, paranIndex: int, keywordIndex: int)
    : Result<ParsedInsert>
  {
    ProcessClause(p.(tableName := Some(TableNameBefore(partial, paranIndex, keywordIndex))),
                  ClauseAfter(partial, isValue, keywordIndex), isValue)
  }

  /** Which fields the processor fills: exactly one of the values and the assignments, the
      alias exactly when `as` occurs in the clause (even inside a word), the duplicate-key
      assignments exactly when that phrase occurs; the rest is left as it was. */
  lemma ProcessClauseFields(p: ParsedInsert, vs: string, isValue: bool)
    requires p.values.None? && p.setAssignments.None? && p.rowAlias.None? && p.onDuplicateKeyUpdate.None?
    requires ProcessClause(p, vs, isValue).Ok?
    ensures var q := ProcessClause(p, vs, isValue).value;
      && (q.values.Some? <==> isValue)
      && (q.setAssignments.Some? <==> !isValue)
      && (q.rowAlias.Some? <==> Contains(ToLower(vs), "as"))
      && (q.onDuplicateKeyUpdate.Some? <==> Contains(ToLower(vs), "on duplicate key update"))
      && q.original == p.original && q.kind == p.kind && q.priority == p.priority
      && q.tableName == p.tableName && q.columns == p.columns
  {
    var ra := RowAliasIndex(vs);
    var dk := DuplicateKeyIndex(vs);
    if ra != -1 || dk != -1 {
      var p2 := if ra > -1 then WithAlias(p, AliasText(vs, ra, dk)) else p;
      var p3 := WithBody(p2, vs, isValue, Some(BodyEnd(ra, dk))).value;
      assert p3.rowAlias == p2.rowAlias && p3.onDuplicateKeyUpdate == p.onDuplicateKeyUpdate;
    }
  }

  /** The record with the table name and the column list when `(` opens before ` values` or
      ` set`, else with the column list set to `null`. */
  function WithColumns(p0: ParsedInsert, s: string, valuesIndex: int, setIndex: int, paranIndex: int): ParsedInsert {
    if paranIndex > -1 && ((valuesIndex > -1 && paranIndex < valuesIndex) || (setIndex > -1 && paranIndex < setIndex)) then
      p0.(tableName := Some(Trim(Substring(s, 0, paranIndex))),
          columns := Some(Csv(Substring(s, paranIndex + 1, IndexOf(s, ")")))))
    else p0.(columns := None)
  }

  /** With no `as` and no `on duplicate key update` in the clause, the values are the CSV
      fields inside the parentheses and nothing else is filled. */
  lemma ProcessClauseValues(p: ParsedInsert, inner: string)
    requires !Contains(ToLower("(" + inner + ")"), "as")
    requires !Contains(ToLower("(" + inner + ")"), "on duplicate key update")
    ensures ProcessClause(p, "(" + inner + ")", true) == Ok(p.(values := Some(Csv(inner))))
  {
    var vs := "(" + inner + ")";
    assert Substring(vs, 1, |vs| - 1) == inner;
  }

  /** With no `as` and no `on duplicate key update` in the clause, the assignments are the
      `extractKVP` map of the whole clause, and an item without `=` makes the decoder throw. */
  lemma ProcessClauseAssignments(p: ParsedInsert, vs: string)
    requires !Contains(ToLower(vs), "as") && !Contains(ToLower(vs), "on duplicate key update")
    ensures ProcessClause(p, vs, false) == if Kvp(vs).None? then Threw else Ok(p.(setAssignments := Kvp(vs)))
  {
  }

  /** The duplicate-key assignments start right after the 23 characters of the phrase
      `on duplicate key update`. */
  lemma DuplicateKeySkipsPhrase(pre: string, rest: string)
    ensures DuplicateKeyText(pre + "on duplicate key update" + rest, -1, |pre|) == Trim(rest)
  {
    var vs := pre + "on duplicate key update" + rest;
    assert SubstringFrom(vs, |pre| + 23) == rest;
  }

  /** `as` is found inside a word: a value containing `as` is taken for a row alias, and the
      value list is cut short before it. */
  lemma AsInsideValueCutsList(p: ParsedInsert)
    ensures ProcessClause(p, "('pass')", true).Ok?
    ensures ProcessClause(p, "('pass')", true).value.values == Some([""])
    ensures ProcessClause(p, "('pass')", true).value.rowAlias.Some?
  {
    var vs := "('pass')";
    assert ToLower(vs) == vs;
    assert OccursAt(vs, "as", 3);
    forall j | 0 <= j < 3 ensures !OccursAt(vs, "as", j) {
      assert vs[j..j + 2][0] == vs[j] != 'a';
    }
    IndexOfFirst(vs, "as");
    assert RowAliasIndex(vs) == 3;
    assert DuplicateKeyIndex(vs) == -1;
    assert Substring(vs, 1, 1) == [];
    assert Csv([]) == [""];
  }

  /** The part of `decodeInsertStatement` after `into`: the column list, then the clause
      after ` values`, else after ` set`, else `null`. */
  function DecodeAfterInto(p0: ParsedInsert, s: string): Result<Option<ParsedInsert>> {
    var vi := IndexOf(ToLower(s), " values");
    var si := IndexOf(ToLower(s), " set");
    var pi := IndexOf(s, "(");
    if vi == -1 && si == -1 then Ok(None)
    else match Process(WithColumns(p0, s, vi, si, pi), s, vi > -1, pi, if vi > -1 then vi else si)
      case Threw => Threw
      case Ok(p) => Ok(Some(p))
  }

  /** What `decodeInsertStatement` returns: `Ok(None)` for its `null`, `Threw` when
      `extractKVP` throws. */
  function DecodeInsert(statement: string): Result<Option<ParsedInsert>> {
    var s := StripInsert(statement);
    var k := IndexOf(s, "into");
    if k == -1 then Ok(None)
    else DecodeAfterInto(Fresh(statement).(priority := PriorityOf(s)), SubstringFrom(s, k + 4))
  }

  /** Where the clause keyword is: ` values` when it occurs, else ` set`. */
  function KeywordIndex(s: string): (r: int)
    ensures r == -1 || 0 <= r <= |s|
  {
    var vi := IndexOf(ToLower(s), " values");
    if vi > -1 then vi else IndexOf(ToLower(s), " set")
  }

  /** The table name is the trimmed text before the first `(` when that opens before the
      keyword, otherwise the trimmed text before the keyword. */
  predicate TableNameRule(name: string, s: string) {
    var kw := KeywordIndex(s);
    var pi := IndexOf(s, "(");
    0 <= kw && (if 0 <= pi < kw then name == Trim(s[..pi]) else name == Trim(s[..kw]))
  }

  /** After `into`: `null` exactly when neither ` values` nor ` set` follows. */
  lemma DecodeAfterIntoNull(p0: ParsedInsert, s: string)
    ensures DecodeAfterInto(p0, s) == Ok(None) <==> !Contains(ToLower(s), " values") && !Contains(ToLower(s), " set")
  {
  }

  /** After `into`, a decoded record keeps what came before, names a table by the table-name
      rule, and holds the values when ` values` occurs and the assignments otherwise. */
  lemma DecodeAfterIntoOutcome(p0: ParsedInsert, s: string)
    requires p0.values.None? && p0.setAssignments.None? && p0.rowAlias.None? && p0.onDuplicateKeyUpdate.None?
    requires DecodeAfterInto(p0, s).Ok? && DecodeAfterInto(p0, s).value.Some?
    ensures var p := DecodeAfterInto(p0, s).value.value;
      && p.original == p0.original
      && p.kind == p0.kind
      && p.priority == p0.priority
      && p.tableName.Some? && TableNameRule(p.tableName.value, s)
      && (p.values.Some? <==> Contains(ToLower(s), " values"))
      && (p.setAssignments.Some? <==> p.values.None?)
  {
    var vi := IndexOf(ToLower(s), " values");
    var si := IndexOf(ToLower(s), " set");
    var pi := IndexOf(s, "(");
    var kw := if vi > -1 then vi else si;
    var p2 := WithColumns(p0, s, vi, si, pi).(tableName := Some(TableNameBefore(s, pi, kw)));
    var vs := ClauseAfter(s, vi > -1, kw);
    ProcessClauseFields(p2, vs, vi > -1);
    assert KeywordIndex(s) == kw;
    assert 0 <= pi < kw ==> Substring(s, 0, pi) == s[..pi];
    assert Substring(s, 0, kw) == s[..kw];
  }

  /** The decoder is the part after `into` applied to a fresh record carrying the priority. */
  lemma DecodeInsertUnfold(statement: string)
    ensures AfterInto(statement).None? ==> DecodeInsert(statement) == Ok(None)
    ensures AfterInto(statement).Some? ==>
      DecodeInsert(statement) == DecodeAfterInto(Fresh(statement).(priority := PriorityOf(StripInsert(statement))), AfterInto(statement).value)
  {
  }

  /** The decoder gives `null` exactly when there is no `into` (case-sensitive) or no
      ` values` / ` set` after it. */
  lemma DecodeInsertNull(statement: string)
    ensures DecodeInsert(statement) == Ok(None) <==>
      AfterInto(statement).None? ||
      (!Contains(ToLower(AfterInto(statement).value), " values") && !Contains(ToLower(AfterInto(statement).value), " set"))
  {
    DecodeInsertUnfold(statement);
    if AfterInto(statement).Some? {
      DecodeAfterIntoNull(Fresh(statement).(priority := PriorityOf(StripInsert(statement))), AfterInto(statement).value);
    }
  }

  /** A decoded record keeps the statement and its priority, names a table, and holds the
      values when ` values` follows `into` and the assignments otherwise, never both. */
  lemma DecodeInsertRecord(statement: string)
    requires DecodeInsert(statement).Ok? && DecodeInsert(statement).value.Some?
    ensures var p := DecodeInsert(statement).value.value;
      && AfterInto(statement).Some?
      && p.original == statement
      && p.kind == Insert
      && p.priority == PriorityOf(StripInsert(statement))
      && p.tableName.Some? && TableNameRule(p.tableName.value, AfterInto(statement).value)
      && (p.values.Some? <==> Contains(ToLower(AfterInto(statement).value), " values"))
      && (p.setAssignments.Some? <==> p.values.None?)
  {
    DecodeInsertUnfold(statement);
    DecodeAfterIntoOutcome(Fresh(statement).(priority := PriorityOf(StripInsert(statement))), AfterInto(statement).value);
  }

  /** The `into` search is case-sensitive: an upper-case `INTO` is not found, and a statement
      with no lower-case `into` is rejected. */
  lemma UpperCaseIntoRejected(rest: string)
    requires !Contains(rest, "into")
    ensures DecodeInsert("INSERT INTO " + rest) == Ok(None)
  {
    var statement := "INSERT INTO " + rest;
    assert statement[..7] == "INSERT ";
    var s := StripInsert(statement);
    assert s == "INTO " + rest;
    IndexOfFirst(rest, "into");
    IndexOfFirst(s, "into");
    forall j | 0 <= j ensures !OccursAt(s, "into", j) {
      if j + 4 <= |s| {
        if j < 5 {
          assert s[j] != 'i';
          assert s[j..j + 4][0] == s[j];
        } else {
          assert s[j..j + 4] == rest[j - 5..j - 1];
          assert !OccursAt(rest, "into", j - 5);
        }
      }
    }
    assert IndexOf(s, "into") == -1;
    assert AfterInto(statement).None?;
    DecodeInsertUnfold(statement);
  }

  /** `a` is `b` with some elements left out. */
  predicate IsSubsequence<T(==)>(a: seq<T>, b: seq<T>)
    decreases |b|
  {
    a == [] ||
    (b != [] && ((a[|a| - 1] == b[|b| - 1] && IsSubsequence(a[..|a| - 1], b[..|b| - 1])) || IsSubsequence(a, b[..|b| - 1])))
  }

  function Originals(r: seq<ParsedInsert>): (o: seq<string>)
    ensures |o| == |r| && forall j :: 0 <= j < |r| ==> o[j] == r[j].original
  {
    seq(|r|, j requires 0 <= j < |r| => r[j].original)
  }

  /** One statement as `parseStatements` treats it: decoded when it is an INSERT. */
  function ParseOne(statement: string): Result<Option<ParsedInsert>> {
    if DetectStatementType(statement) == Some(Insert) then DecodeInsert(statement) else Ok(None)
  }

  /** The statements parsed one by one, in order, keeping the records and dropping the
      `null`s; the first throw ends the run. */
  function Collect(statements: seq<string>, parse: string -> Result<Option<ParsedInsert>>): Result<seq<ParsedInsert>> {
    if statements == [] then Ok([])
    else
      match Collect(statements[..|statements| - 1], parse)
      case Threw => Threw
      case Ok(init) =>
        match parse(statements[|statements| - 1])
        case Threw => Threw
        case Ok(h) => Ok(init + (if h.Some? then [h.value] else []))
  }

  /** What `parseStatements` returns. */
  function ParsedAll(statements: seq<string>): Result<seq<ParsedInsert>> {
    Collect(statements, ParseOne)
  }

  /** One more statement: the run so far, then that statement's parse. */
  lemma CollectStep(statements: seq<string>, parse: string -> Result<Option<ParsedInsert>>, i: nat)
    requires i < |statements|
    ensures Collect(statements[..i + 1], parse) ==
      match Collect(statements[..i], parse)
      case Threw => Threw
      case Ok(init) =>
        match parse(statements[i])
        case Threw => Threw
        case Ok(h) => Ok(init + (if h.Some? then [h.value] else []))
  {
    assert statements[..i + 1][..i] == statements[..i];
    assert statements[..i + 1][i] == statements[i];
  }

  /** A throw on a prefix is a throw on the whole list. */
  lemma {:induction false} CollectThrewStays(statements: seq<string>, parse: string -> Result<Option<ParsedInsert>>, i: nat)
    requires i <= |statements| && Collect(statements[..i], parse).Threw?
    ensures Collect(statements, parse).Threw?
    decreases |statements| - i
  {
    if i < |statements| {
      assert statements[..i + 1][..i] == statements[..i];
      assert statements[..i + 1][i] == statements[i];
      CollectThrewStays(statements, parse, i + 1);
    } else {
      assert statements[..i] == statements;
    }
  }

  /** When each record a parse returns holds the text it came from, the collected records
      come from statements of the input, each parsed on its own, in their input order. */
  lemma {:induction false} CollectInOrder(statements: seq<string>, parse: string -> Result<Option<ParsedInsert>>)
    requires forall s :: parse(s).Ok? && parse(s).value.Some? ==> parse(s).value.value.original == s
    requires Collect(statements, parse).Ok?
    ensures var r := Collect(statements, parse).value;
      && IsSubsequence(Originals(r), statements)
      && forall j :: 0 <= j < |r| ==> parse(r[j].original) == Ok(Some(r[j]))
  {
    if statements != [] {
      var init := statements[..|statements| - 1];
      var last := statements[|statements| - 1];
      CollectInOrder(init, parse);
      var rest := Collect(init, parse).value;
      var r := Collect(statements, parse).value;
      if parse(last).value.Some? {
        var h := parse(last).value.value;
        assert r == rest + [h];
        assert Originals(r)[..|r| - 1] == Originals(rest);
      } else {
        assert r == rest;
      }
    }
  }

  /** The parsed statements are INSERT statements of the input, each decoded on its own, in
      their input order; there are never more of them than statements. */
  lemma ParsedAllInOrder(statements: seq<string>)
    requires ParsedAll(statements).Ok?
    ensures var r := ParsedAll(statements).value;
      && |r| <= |statements|
      && IsSubsequence(Originals(r), statements)
      && forall j :: 0 <= j < |r| ==>
           DetectStatementType(r[j].original) == Some(Insert) && DecodeInsert(r[j].original) == Ok(Some(r[j]))
  {
    forall s | ParseOne(s).Ok? && ParseOne(s).value.Some? ensures ParseOne(s).value.value.original == s {
      DecodeInsertRecord(s);
    }
    CollectInOrder(statements, ParseOne);
    SubsequenceLength(Originals(ParsedAll(statements).value), statements);
  }

  lemma {:induction false} SubsequenceLength<T>(a: seq<T>, b: seq<T>)
    requires IsSubsequence(a, b)
    ensures |a| <= |b|
    decreases |b|
  {
    if a != [] {
      if a[|a| - 1] == b[|b| - 1] && IsSubsequence(a[..|a| - 1], b[..|b| - 1]) {
        SubsequenceLength(a[..|a| - 1], b[..|b| - 1]);
      } else {
        SubsequenceLength(a, b[..|b| - 1]);
      }
    }
  }

  // -----------------------------------------------------------------------------------------
  // The record and the operations that fill it in place
  // -----------------------------------------------------------------------------------------

  /** `ParsedSQLStatement` as the object `decodeInsertStatement` fills. */
  class InsertRecord {
    var original: string
    var kind: Kind
    var priority: Option<Priority>
    var tableName: Option<string>
    var columns: Option<seq<string>>
    var values: Option<seq<string>>
    var rowAlias: Option<string>
    var rowAliasColumns: Option<seq<string>>
    var onDuplicateKeyUpdate: Option<map<string, string>>
    var setAssignments: Option<map<string, string>>

    constructor (statement: string)
      ensures Snapshot() == Fresh(statement)
    {
      original, kind, priority := statement, Insert, None;
      tableName, columns, values := None, None, None;
      rowAlias, rowAliasColumns := None, None;
      onDuplicateKeyUpdate, setAssignments := None, None;
    }

    function Snapshot(): ParsedInsert
      reads this
    {
      ParsedInsert(original, kind, priority, tableName, columns, values,
                   rowAlias, rowAliasColumns, onDuplicateKeyUpdate, setAssignments)
    }
  }

  /** The values or assignments of `vs` up to `end` (or all of it) into the record. */
  method StoreBody(rec: InsertRecord, vs: string, isValue: bool, end: Option<int>) returns (threw: bool)
    modifies rec
    ensures threw <==> WithBody(old(rec.Snapshot()), vs, isValue, end).Threw?
    ensures !threw ==> rec.Snapshot() == WithBody(old(rec.Snapshot()), vs, isValue, end).value
  {
    ghost var before := rec.Snapshot();
    threw := false;
    if isValue {
      var vals := ExtractCSV(if end.None? then Substring(vs, 1, |vs| - 1) else Substring(vs, 1, end.value - 2));
      rec.values := Some(vals);
      assert rec.Snapshot() == before.(values := Some(vals));
    } else {
      var kvp := ExtractKVP(if end.None? then vs else Substring(vs, 0, end.value - 1));
      if kvp.None? {
        return true;
      }
      rec.setAssignments := kvp;
      assert rec.Snapshot() == before.(setAssignments := kvp);
    }
  }

  /** `insertStatementValueOrSetProcessor`, branch for branch; `threw` when `extractKVP` throws. */
  method InsertStatementValueOrSetProcessor(rec: InsertRecord, partial: string, isValue: bool,
                                            paranIndex: int, keywordIndex: int) returns (threw: bool)
    modifies rec
    ensures threw <==> Process(old(rec.Snapshot()), partial, isValue, paranIndex, keywordIndex).Threw?
    ensures !threw ==> rec.Snapshot() == Process(old(rec.Snapshot()), partial, isValue, paranIndex, keywordIndex).value
  {
    ghost var before := rec.Snapshot();
    if paranIndex == -1 {
      rec.tableName := Some(Trim(Substring(partial, 0, keywordIndex)));
    } else if paranIndex < keywordIndex {
      rec.tableName := Some(Trim(Substring(partial, 0, paranIndex)));
    } else {
      rec.tableName := Some(Trim(Substring(partial, 0, keywordIndex)));
    }
    assert rec.Snapshot() == before.(tableName := Some(TableNameBefore(partial, paranIndex, keywordIndex)));
    var valueOrSet := Trim(SubstringFrom(partial, keywordIndex + (if isValue then 7 else 4)));
    threw := ReadClause(rec, valueOrSet, isValue);
  }

  /** Storing the body a second time changes nothing: the alias block has already stored it. */
  lemma StoreBodyAgain(p: ParsedInsert, vs: string, isValue: bool, end: int,
                       alias: Option<string>, aliasColumns: Option<seq<string>>, duplicates: Option<map<string, string>>)
    requires WithBody(p, vs, isValue, Some(end)).Ok?
    ensures var q := WithBody(p, vs, isValue, Some(end)).value.(rowAlias := alias, rowAliasColumns := aliasColumns,
                                                                 onDuplicateKeyUpdate := duplicates);
      WithBody(q, vs, isValue, Some(end)) == Ok(q)
  {
  }

  /** Storing the body after the duplicate-key assignments gives the same record as before. */
  lemma StoreBodyAfter(p: ParsedInsert, vs: string, isValue: bool, end: int, duplicates: Option<map<string, string>>)
    ensures WithBody(p.(onDuplicateKeyUpdate := duplicates), vs, isValue, Some(end)) ==
      match WithBody(p, vs, isValue, Some(end))
      case Threw => Threw
      case Ok(q) => Ok(q.(onDuplicateKeyUpdate := duplicates))
  {
  }

  /** The rest of `insertStatementValueOrSetProcessor`: the clause is cut at `as` and at
      `on duplicate key update`, whichever comes first, and the alias and the duplicate-key
      assignments are read from what follows them. */
  method ReadClause(rec: InsertRecord, valueOrSet: string, isValue: bool) returns (threw: bool)
    modifies rec
    ensures threw <==> ProcessClause(old(rec.Snapshot()), valueOrSet, isValue).Threw?
    ensures !threw ==> rec.Snapshot() == ProcessClause(old(rec.Snapshot()), valueOrSet, isValue).value
  {
    var rowAliasIndex := IndexOf(ToLower(valueOrSet), "as");
    var duplicateKeyIndex := IndexOf(ToLower(valueOrSet), "on duplicate key update");
    if rowAliasIndex == -1 && duplicateKeyIndex == -1 {
      threw := StoreBody(rec, valueOrSet, isValue, None);
    } else {
      threw := ReadCutClause(rec, valueOrSet, isValue, rowAliasIndex, duplicateKeyIndex);
    }
  }

  /** The two blocks of `insertStatementValueOrSetProcessor` for a clause with `as` or
      `on duplicate key update` in it. */
  method ReadCutClause(rec: InsertRecord, valueOrSet: string, isValue: bool, rowAliasIndex: int, duplicateKeyIndex: int)
    returns (threw: bool)
    requires -1 <= rowAliasIndex && -1 <= duplicateKeyIndex
    requires rowAliasIndex > -1 || duplicateKeyIndex > -1
    modifies rec
    ensures threw <==> CutClause(old(rec.Snapshot()), valueOrSet, isValue, rowAliasIndex, duplicateKeyIndex).Threw?
    ensures !threw ==>
      rec.Snapshot() == CutClause(old(rec.Snapshot()), valueOrSet, isValue, rowAliasIndex, duplicateKeyIndex).value
  {
    var end := BodyEnd(rowAliasIndex, duplicateKeyIndex);
    ghost var p := rec.Snapshot();
    ghost var w := WithBody(p, valueOrSet, isValue, Some(end));
    threw := false;
    if rowAliasIndex > -1 {
      threw := ReadRowAlias(rec, valueOrSet, isValue, end, AliasText(valueOrSet, rowAliasIndex, duplicateKeyIndex));
      if threw {
        return;
      }
      assert rec.Snapshot() == WithAlias(w.value, AliasText(valueOrSet, rowAliasIndex, duplicateKeyIndex));
    }
    if duplicateKeyIndex > -1 {
      ghost var q := rec.Snapshot();
      var assignments := DuplicateKeyText(valueOrSet, rowAliasIndex, duplicateKeyIndex);
      ghost var k := Kvp(assignments);
      if rowAliasIndex > -1 {
        StoreBodyAgain(p, valueOrSet, isValue, end, q.rowAlias, q.rowAliasColumns, k);
        assert q.(onDuplicateKeyUpdate := k) ==
          w.value.(rowAlias := q.rowAlias, rowAliasColumns := q.rowAliasColumns, onDuplicateKeyUpdate := k);
        assert WithBody(q.(onDuplicateKeyUpdate := k), valueOrSet, isValue, Some(end)) == Ok(q.(onDuplicateKeyUpdate := k));
        assert CutClause(p, valueOrSet, isValue, rowAliasIndex, duplicateKeyIndex) ==
          WithDuplicateKey(q, valueOrSet, rowAliasIndex, duplicateKeyIndex);
      } else {
        StoreBodyAfter(p, valueOrSet, isValue, end, k);
        assert q == p;
      }
      threw := ReadDuplicateKey(rec, valueOrSet, isValue, end, assignments);
      if !threw {
        assert k.Some? && w.Ok?;
        assert rec.Snapshot() == WithBody(q.(onDuplicateKeyUpdate := k), valueOrSet, isValue, Some(end)).value;
        if rowAliasIndex > -1 {
          assert rec.Snapshot() == q.(onDuplicateKeyUpdate := k);
        } else {
          assert rec.Snapshot() == w.value.(onDuplicateKeyUpdate := k);
        }
      }
    } else {
      assert CutClause(p, valueOrSet, isValue, rowAliasIndex, duplicateKeyIndex) ==
        Ok(WithAlias(w.value, AliasText(valueOrSet, rowAliasIndex, duplicateKeyIndex)));
    }
  }

  /** The block for a row alias: the body up to `end`, then the alias and its columns. */
  method ReadRowAlias(rec: InsertRecord, valueOrSet: string, isValue: bool, end: int, rowAlias: string)
    returns (threw: bool)
    modifies rec
    ensures threw <==> WithBody(old(rec.Snapshot()), valueOrSet, isValue, Some(end)).Threw?
    ensures !threw ==> rec.Snapshot() == WithAlias(WithBody(old(rec.Snapshot()), valueOrSet, isValue, Some(end)).value, rowAlias)
  {
    threw := StoreBody(rec, valueOrSet, isValue, Some(end));
    if threw {
      return;
    }
    ghost var p3 := rec.Snapshot();
    rec.rowAlias := Some(Trim(Substring(rowAlias, 0, IndexOf(rowAlias, "("))));
    var aliasColumns := ExtractCSV(Substring(rowAlias, IndexOf(rowAlias, "(") + 1, IndexOf(rowAlias, ")")));
    rec.rowAliasColumns := Some(aliasColumns);
    assert rec.Snapshot() == WithAlias(p3, rowAlias);
  }

  /** The block for ON DUPLICATE KEY UPDATE: its assignments, then the body up to `end`
      stored again (the same value the alias block may already have stored). */
  method ReadDuplicateKey(rec: InsertRecord, valueOrSet: string, isValue: bool, end: int, assignments: string)
    returns (threw: bool)
    modifies rec
    ensures threw <==> (Kvp(assignments).None? ||
      WithBody(old(rec.Snapshot()).(onDuplicateKeyUpdate := Kvp(assignments)), valueOrSet, isValue, Some(end)).Threw?)
    ensures !threw ==>
      rec.Snapshot() == WithBody(old(rec.Snapshot()).(onDuplicateKeyUpdate := Kvp(assignments)), valueOrSet, isValue, Some(end)).value
  {
    var kvp := ExtractKVP(assignments);
    if kvp.None? {
      return true;
    }
    rec.onDuplicateKeyUpdate := kvp;
    threw := StoreBody(rec, valueOrSet, isValue, Some(end));
  }

  /** The three priority tests of `decodeInsertStatement`; a later match overwrites an
      earlier one. */
  method ReadPriority(rec: InsertRecord, s: string)
    requires rec.priority.None?
    modifies rec
    ensures rec.Snapshot() == old(rec.Snapshot()).(priority := PriorityOf(s))
  {
    if StartsWithIgnoringCase(s, "low_priority") { rec.priority := Some(LowPriority); }
    if StartsWithIgnoringCase(s, "delayed") { rec.priority := Some(Delayed); }
    if StartsWithIgnoringCase(s, "high_priority") { rec.priority := Some(HighPriority); }
  }

  /** `decodeInsertStatement`: `Ok(None)` for its `null` (the console messages are not modelled). */
  method DecodeInsertStatement(statement: string) returns (r: Result<Option<ParsedInsert>>)
    ensures r == DecodeInsert(statement)
  {
    var rec := new InsertRecord(statement);
    var s := StripInsert(statement);
    ReadPriority(rec, s);
    var intoIndex := IndexOf(s, "into");
    DecodeInsertUnfold(statement);
    if intoIndex == -1 {
      assert AfterInto(statement).None?;
      return Ok(None);
    }
    s := SubstringFrom(s, intoIndex + 4);
    assert AfterInto(statement) == Some(s);
    r := DecodeAfterIntoRecord(rec, s);
  }

  /** The part of `decodeInsertStatement` after `into`, on the record it fills. */
  method DecodeAfterIntoRecord(rec: InsertRecord, s: string) returns (r: Result<Option<ParsedInsert>>)
    modifies rec
    ensures r == DecodeAfterInto(old(rec.Snapshot()), s)
  {
    ghost var p0 := rec.Snapshot();
    var valuesIndex := IndexOf(ToLower(s), " values");
    var setIndex := IndexOf(ToLower(s), " set");
    var paranIndex := IndexOf(s, "(");
    if paranIndex > -1 && ((valuesIndex > -1 && paranIndex < valuesIndex) || (setIndex > -1 && paranIndex < setIndex)) {
      rec.tableName := Some(Trim(Substring(s, 0, paranIndex)));
      var cols := ExtractCSV(Substring(s, paranIndex + 1, IndexOf(s, ")")));
      rec.columns := Some(cols);
    } else {
      rec.columns := None;
    }
    ghost var p1 := rec.Snapshot();
    assert p1 == WithColumns(p0, s, valuesIndex, setIndex, paranIndex);
    if valuesIndex == -1 && setIndex == -1 {
      return Ok(None);
    }
    var threw;
    if valuesIndex > -1 {
      threw := InsertStatementValueOrSetProcessor(rec, s, true, paranIndex, valuesIndex);
    } else {
      threw := InsertStatementValueOrSetProcessor(rec, s, false, paranIndex, setIndex);
    }
    ghost var processed := Process(p1, s, valuesIndex > -1, paranIndex, if valuesIndex > -1 then valuesIndex else setIndex);
    assert DecodeAfterInto(p0, s) == if processed.Threw? then Threw else Ok(Some(processed.value));
    if threw {
      return Threw;
    }
    return Ok(Some(rec.Snapshot()));
  }

  /** `parseStatements`: the statements in order, each decoded when it is an INSERT; the
      warning for other kinds is console output and is not modelled. */
  method ParseStatements(statements: seq<string>) returns (r: Result<seq<ParsedInsert>>)
    ensures r == ParsedAll(statements)
  {
    var parsed: seq<ParsedInsert> := [];
    for i := 0 to |statements|
      invariant Collect(statements[..i], ParseOne) == Ok(parsed)
    {
      CollectStep(statements, ParseOne, i);
      var decoded: Result<Option<ParsedInsert>> := Ok(None);
      if DetectStatementType(statements[i]) == Some(Insert) {
        decoded := DecodeInsertStatement(statements[i]);
      }
      assert ParseOne(statements[i]) == decoded;
      if decoded.Threw? {
        CollectThrewStays(statements, ParseOne, i + 1);
        return Threw;
      }
      if decoded.value.Some? {
        parsed := parsed + [decoded.value.value];
      } else {
        assert parsed + [] == parsed;
      }
    }
    assert statements[..|statements|] == statements;
    return Ok(parsed);
  }
}
