/** The structured statements of src/db/parser.h and the sizes of their buffers. */
module Statements {
  import opened Text

  const MAX_IDENTIFIER_LEN: nat := 64
  const MAX_VALUE_LEN: nat := 256
  const MAX_COLUMNS: nat := 32
  const MAX_OPERATOR_LEN: nat := 4

  datatype WhereClause = WhereClause(column: string, op: string, value: string)

  datatype InsertStatement = InsertStatement(table: string, columns: seq<string>, values: seq<string>)

  datatype SelectStatement = SelectStatement(table: string, columns: seq<string>, where: Option<WhereClause>)

  datatype DeleteStatement = DeleteStatement(table: string, where: Option<WhereClause>)

  datatype Statement =
    | Insert(insert: InsertStatement)
    | Select(select: SelectStatement)
    | Delete(delete: DeleteStatement)

  predicate FitsName(s: string) {
    |s| < MAX_IDENTIFIER_LEN
  }

  /** A table name; identifier tokens are never empty. */
  predicate FitsTable(s: string) {
    s != "" && FitsName(s)
  }

  predicate FitsValue(s: string) {
    |s| < MAX_VALUE_LEN
  }

  predicate FitsNames(names: seq<string>) {
    |names| <= MAX_COLUMNS && forall i :: 0 <= i < |names| ==> FitsName(names[i])
  }

  predicate FitsWhere(where: Option<WhereClause>) {
    where.Some? ==>
      FitsName(where.value.column) && FitsValue(where.value.value) && |where.value.op| < MAX_OPERATOR_LEN
  }

  predicate FitsInsert(stmt: InsertStatement) {
    && FitsTable(stmt.table) && FitsNames(stmt.columns)
    && |stmt.values| == |stmt.columns|
    && forall i :: 0 <= i < |stmt.values| ==> FitsValue(stmt.values[i])
  }

  /** The statement fits the fixed-size fields of the C structures. */
  predicate Fits(stmt: Statement) {
    match stmt
    case Insert(s) => FitsInsert(s)
    case Select(s) => FitsTable(s.table) && FitsNames(s.columns) && FitsWhere(s.where)
    case Delete(s) => FitsTable(s.table) && FitsWhere(s.where)
  }

  predicate IsShort(s: string, limit: nat) {
    |s| <= limit
  }

  predicate AreShort(names: seq<string>, limit: nat) {
    forall i :: 0 <= i < |names| ==> IsShort(names[i], limit)
  }

  predicate ConditionFits(where: Option<WhereClause>) {
    where.Some? ==> IsShort(where.value.column, 63) && IsShort(where.value.op, 3) && IsShort(where.value.value, 255)
  }

  /** The sizes of the buffers, each less one for the terminating NUL. */
  lemma FitsExactly(stmt: Statement)
    ensures Fits(stmt) <==>
            match stmt
            case Insert(s) =>
              && 1 <= |s.table| <= 63 && |s.columns| == |s.values| <= 32
              && AreShort(s.columns, 63) && AreShort(s.values, 255)
            case Select(s) =>
              1 <= |s.table| <= 63 && |s.columns| <= 32 && AreShort(s.columns, 63) && ConditionFits(s.where)
            case Delete(s) => 1 <= |s.table| <= 63 && ConditionFits(s.where)
  {
    forall name: string ensures FitsName(name) <==> IsShort(name, 63) {}
    forall value: string ensures FitsValue(value) <==> IsShort(value, 255) {}
    hide FitsName, FitsValue, IsShort;
  }
}
