/** The batch front end of sql.ts: cutting the text of a SQL file into statements
    (sql.ts:24) and the allow-list of leading keywords every statement must pass before
    anything runs (sql.ts:27-46). */
module Batch {
  import opened Wrappers
  import opened Strings
  import opened Interfaces
  import opened Logging
  import Lists
  import Parser

  // -----------------------------------------------------------------------------------------
  // fileContents.split(/;\s*$/m).map(trim).filter(non-empty)
  // -----------------------------------------------------------------------------------------

  /** From `j` on, `\s*$` can match in multi-line mode: the run of white space that starts at
      `j` reaches the end of the text or holds a line terminator. */
  predicate LineEndsAt(s: string, j: nat)
    decreases |s| - j
  {
    j >= |s| || (IsWhitespace(s[j]) && (IsLineTerminator(s[j]) || LineEndsAt(s, j + 1)))
  }

  /** A `;` where the separator `/;\s*$/m` matches: nothing but white space follows it on
      its line. */
  predicate IsTerminator(s: string, p: int) {
    0 <= p < |s| && s[p] == ';' && LineEndsAt(s, p + 1)
  }

  /** The pieces between terminators, the current one starting at `start`, the scan being at
      `i`. The white space a match consumes after its `;` is left at the front of the next
      piece here; every piece is trimmed before use, so that makes no difference. */
  function PiecesFrom(s: string, start: nat, i: nat): (r: seq<string>)
    requires start <= i <= |s|
    ensures |r| >= 1
    decreases |s| - i
  {
    if i == |s| then [s[start..]]
    else if IsTerminator(s, i) then [s[start..i]] + PiecesFrom(s, i + 1, i + 1)
    else PiecesFrom(s, start, i + 1)
  }

  function Pieces(s: string): seq<string> {
    PiecesFrom(s, 0, 0)
  }

  /** `filter(stmt => stmt.length > 0)`. */
  function NonEmpty(xs: seq<string>): (r: seq<string>)
    ensures forall k :: 0 <= k < |r| ==> r[k] != [] && r[k] in xs
    ensures forall x :: x in xs && x != [] ==> x in r
    ensures forall x :: x != [] ==> multiset(r)[x] == multiset(xs)[x]
  {
    if xs == [] then []
    else
      assert xs == [xs[0]] + xs[1..];
      (if xs[0] == [] then [] else [xs[0]]) + NonEmpty(xs[1..])
  }

  /** The filter keeps order: the statements of two pieces of text come one after the other,
      and a single statement is kept exactly when it is not empty. */
  lemma {:induction false} NonEmptyAppend(xs: seq<string>, ys: seq<string>)
    ensures NonEmpty(xs + ys) == NonEmpty(xs) + NonEmpty(ys)
    ensures |ys| == 1 ==> NonEmpty(ys) == (if ys[0] == [] then [] else ys)
  {
    if xs != [] {
      assert (xs + ys)[1..] == xs[1..] + ys;
      NonEmptyAppend(xs[1..], ys);
      AppendAssociative(if xs[0] == [] then [] else [xs[0]], NonEmpty(xs[1..]), NonEmpty(ys));
    } else {
      assert xs + ys == ys;
    }
    if |ys| == 1 {
      assert ys[1..] == [];
    }
  }

  /** What `readSQLFile` returns for the text of the file. */
  function ReadStatements(text: string): seq<string> {
    NonEmpty(Lists.TrimAll(Pieces(text)))
  }

  /** The pieces joined again with `;` give back the text: nothing is lost but the
      terminators themselves. */
  lemma {:induction false} PiecesFromJoin(s: string, start: nat, i: nat)
    requires start <= i <= |s|
    ensures Join(PiecesFrom(s, start, i), ";") == s[start..]
    decreases |s| - i
  {
    if i == |s| {
    } else if IsTerminator(s, i) {
      var rest := PiecesFrom(s, i + 1, i + 1);
      PiecesFromJoin(s, i + 1, i + 1);
      assert ([s[start..i]] + rest)[1..] == rest;
      assert s[start..] == s[start..i] + ";" + s[i + 1..];
    } else {
      PiecesFromJoin(s, start, i + 1);
    }
  }

  lemma PiecesJoin(s: string)
    ensures Join(Pieces(s), ";") == s
  {
    PiecesFromJoin(s, 0, 0);
  }

  /** Without a terminator from `i` on, the current piece runs to the end of the text. */
  lemma {:induction false} PiecesFromNoTerminator(s: string, start: nat, i: nat)
    requires start <= i <= |s|
    requires forall p :: i <= p < |s| ==> !IsTerminator(s, p)
    ensures PiecesFrom(s, start, i) == [s[start..]]
    decreases |s| - i
  {
    if i < |s| {
      PiecesFromNoTerminator(s, start, i + 1);
    }
  }

  /** A `;` with more text after it on its line does not cut the statement. */
  lemma SemicolonMidLineKept(a: string, b: string)
    requires a != [] && b != []
    requires !IsWhitespace(b[0]) && ';' !in a && ';' !in b
    ensures Pieces(a + ";" + b) == [a + ";" + b]
  {
    var s := a + ";" + b;
    forall p | 0 <= p < |s| ensures !IsTerminator(s, p) {
      if p < |a| {
        assert s[p] == a[p];
      } else if p > |a| {
        assert s[p] == b[p - |a| - 1];
      } else {
        assert s[p + 1] == b[0];
      }
    }
    PiecesFromNoTerminator(s, 0, 0);
  }

  /** Every statement read is non-empty and has no white space at either end. */
  lemma StatementsTrimmed(text: string)
    ensures forall k :: 0 <= k < |ReadStatements(text)| ==>
      ReadStatements(text)[k] != [] && Trim(ReadStatements(text)[k]) == ReadStatements(text)[k]
  {
    var trimmed := Lists.TrimAll(Pieces(text));
    forall k | 0 <= k < |ReadStatements(text)|
      ensures Trim(ReadStatements(text)[k]) == ReadStatements(text)[k]
    {
      var x := ReadStatements(text)[k];
      var j :| 0 <= j < |trimmed| && trimmed[j] == x;
      TrimOfTrimmed(x);
    }
  }

  // -----------------------------------------------------------------------------------------
  // validateSQL
  // -----------------------------------------------------------------------------------------

  /** The leading keywords `validateSQL` lets through, compared in lower case. */
  predicate Allowed(statement: string) {
    || Parser.StartsWithIgnoringCase(statement, "select")
    || Parser.StartsWithIgnoringCase(statement, "insert")
    || Parser.StartsWithIgnoringCase(statement, "update")
    || Parser.StartsWithIgnoringCase(statement, "delete")
    || Parser.StartsWithIgnoringCase(statement, "create")
    || Parser.StartsWithIgnoringCase(statement, "drop")
    || Parser.StartsWithIgnoringCase(statement, "alter")
    || Parser.StartsWithIgnoringCase(statement, "-")
    || Parser.StartsWithIgnoringCase(statement, "truncate")
  }

  /** The position of the first statement that is not allowed, if any. */
  function FirstRejected(statements: seq<string>): (r: Option<nat>)
    ensures r.None? <==> forall j :: 0 <= j < |statements| ==> Allowed(statements[j])
    ensures r.Some? ==>
      && r.value < |statements|
      && !Allowed(statements[r.value])
      && forall j :: 0 <= j < r.value ==> Allowed(statements[j])
  {
    if statements == [] then None
    else if !Allowed(statements[0]) then Some(0)
    else match FirstRejected(statements[1..])
      case None => None
      case Some(k) => Some(k + 1)
  }

  /** The entry `validateSQL` logs for the statement that stops the run. */
  function RejectEntry(statement: string): LogStructure {
    LogStructure(Severity.Error, "Potentially invalid SQL statement: " + statement, None, Progress(0, 0))
  }

  /** `validateSQL`: `ok` is false where the source calls `process.exit(1)`, after logging
      the first statement that fails the allow-list; nothing is logged when all pass. */
  method ValidateSQL(log: Log, statements: seq<string>) returns (ok: bool)
    modifies log
    ensures ok <==> FirstRejected(statements).None?
    ensures ok ==> log.messages == old(log.messages)
    ensures !ok ==> log.messages == old(log.messages) + [RejectEntry(statements[FirstRejected(statements).value])]
  {
    for i := 0 to |statements|
      invariant forall j :: 0 <= j < i ==> Allowed(statements[j])
      invariant log.messages == old(log.messages)
    {
      if !Allowed(statements[i]) {
        log.Error("Potentially invalid SQL statement: " + statements[i], 0, 0);
        return false;
      }
    }
    return true;
  }

  /** `getStatements` on the text of the file: the statements when all pass, `None` where the
      run stops. */
  method GetStatements(log: Log, text: string) returns (r: Option<seq<string>>)
    modifies log
    ensures r.Some? <==> FirstRejected(ReadStatements(text)).None?
    ensures r.Some? ==> r.value == ReadStatements(text)
    ensures r.Some? ==> log.messages == old(log.messages)
    ensures r.None? ==>
      var statements := ReadStatements(text);
      log.messages == old(log.messages) + [RejectEntry(statements[FirstRejected(statements).value])]
  {
    var statements := ReadStatements(text);
    var ok := ValidateSQL(log, statements);
    r := if ok then Some(statements) else None;
  }

  /** Every statement the INSERT decoder classifies passes the allow-list. */
  lemma DetectedIsAllowed(statement: string)
    requires Parser.DetectStatementType(statement).Some?
    ensures Allowed(statement)
  {
    if Parser.StartsWithIgnoringCase(statement, "create table") {
      Parser.StartsWithIgnoringCasePrefix(statement, "create table", 6);
      assert "create table"[..6] == "create";
    } else if Parser.StartsWithIgnoringCase(statement, "drop table") {
      Parser.StartsWithIgnoringCasePrefix(statement, "drop table", 4);
      assert "drop table"[..4] == "drop";
    } else if Parser.StartsWithIgnoringCase(statement, "alter table") {
      Parser.StartsWithIgnoringCasePrefix(statement, "alter table", 5);
      assert "alter table"[..5] == "alter";
    }
  }
}
