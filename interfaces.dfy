/** The records the executor and the log exchange. interfaces.ts is imported for `Column`,
    `Table`, `InsertStatement`, `SQLDataType`, `KVP` and `LogStructure` but does not declare
    them; they are rebuilt here from the places that build and read them (the column row
    mapping in sql.ts:160-185, the statement initialiser in sql.ts:472-481 and the log
    push in log.ts:7). */
module Interfaces {
  import opened Wrappers

  /** A decoded SQL literal: the JavaScript value `convertToCorrectDataType` produces.
      `Num` keeps the text `parseFloat` read (the floating-point value itself is not modelled). */
  datatype SqlValue = Str(text: string) | Num(literal: string) | Bool(b: bool) | Null

  /** One `{ [key]: value }` object of the word-array decoder. */
  type KVP = (string, string)

  /** A column as `getTableMetadata` reports it. */
  datatype Column = Column(
    name: string,
    ordinal: int,              // zero-based
    default: Option<string>,
    nullable: bool,
    dataType: string,          // lower-cased engine type name ("varchar", "int", ...)
    length: Option<int>,
    precision: Option<int>,
    columnType: string,
    key: string,               // "PRI", "UNI", "MUL" or ""
    extra: string)

  datatype Table = Table(name: string, columns: seq<Column>, rowCount: int)

  /** The record `SQL.decodeInsertStatement` fills from the word array. */
  datatype InsertStatement = InsertStatement(
    tableName: string,
    partitionNames: seq<SqlValue>,
    columnNames: seq<SqlValue>,
    values: seq<SqlValue>,
    rowAliases: seq<SqlValue>,
    onDuplicateKeyUpdate: seq<KVP>,
    valuesKVP: seq<KVP>,
    selectStatement: string)

  /** The all-empty record every decode starts from. */
  const EmptyInsert := InsertStatement("", [], [], [], [], [], [], "")

  datatype Severity = Info | Error

  /** One log entry; the only payload the core attaches is a decoded insert statement. */
  datatype LogStructure = LogStructure(
    severity: Severity,
    message: string,
    payload: Option<InsertStatement>,
    progress: string)
}
