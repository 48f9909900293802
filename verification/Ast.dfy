/** The statements the parser builds and the executor runs. */
module Ast {

  /** A literal as written: its text and whether it was an integer literal. */
  datatype Literal = Literal(text: string, isInt: bool)

  datatype ColumnDef = ColumnDef(name: string, ty: string, primary: bool)

  /** A WHERE clause, or none. */
  datatype Condition = Always | Compare(column: string, op: string, literal: Literal)

  datatype Statement =
    | CreateDatabase(name: string)
    | DropDatabase(name: string)
    | Use(name: string)
    | CreateTable(table: string, columns: seq<ColumnDef>)
    | DropTable(table: string)
    | Select(table: string, column: string, cond: Condition)
    | Delete(table: string, cond: Condition)
    | Insert(table: string, values: seq<Literal>)
    | Update(table: string, column: string, value: Literal, cond: Condition)
    | Invalid
}
