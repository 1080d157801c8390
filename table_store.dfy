/**
 * The relational store the migration runs against, reduced to what it uses:
 * a schema check, adding a nullable column, a two-column SELECT, a
 * SELECT DISTINCT over one column, and an UPDATE ... SET c = ? WHERE k = ?.
 */
module TableStore {

  /** A column value: SQL NULL, an integer or a text. */
  datatype Value = Null | Int(i: int) | Text(s: string)

  /** A row maps each column name of its table to that column's value. */
  type Row = map<string, Value>

  datatype Table = Table(columns: set<string>, rows: seq<Row>) {
    /** Every row has exactly the table's columns. */
    predicate WellFormed()
    {
      forall i :: 0 <= i < |rows| ==> rows[i].Keys == columns
    }
  }

  /** The table after ALTER TABLE ... ADD COLUMN `column` (nullable): existing rows hold NULL there. */
  function WithColumn(t: Table, column: string): (r: Table)
    ensures t.WellFormed() ==> r.WellFormed()
    ensures r.columns == t.columns + {column} && |r.rows| == |t.rows|
    ensures forall i, c :: 0 <= i < |t.rows| && c in t.rows[i] && c != column ==> c in r.rows[i] && r.rows[i][c] == t.rows[i][c]
    ensures forall i :: 0 <= i < |r.rows| ==> column in r.rows[i] && r.rows[i][column] == Null
  {
    Table(t.columns + {column}, seq(|t.rows|, i requires 0 <= i < |t.rows| => t.rows[i][column := Null]))
  }

  /** The rows after UPDATE ... SET `setColumn` = `setValue` WHERE `whereColumn` = `whereValue`. */
  function UpdateRows(rows: seq<Row>, setColumn: string, setValue: Value, whereColumn: string, whereValue: Value): (r: seq<Row>)
    ensures |r| == |rows|
    ensures forall i :: 0 <= i < |rows| && setColumn in rows[i] ==> r[i].Keys == rows[i].Keys
    ensures forall i :: 0 <= i < |rows| && !(whereColumn in rows[i] && rows[i][whereColumn] == whereValue) ==> r[i] == rows[i]
    ensures forall i, c :: 0 <= i < |rows| && c in rows[i] && c != setColumn ==> c in r[i] && r[i][c] == rows[i][c]
    ensures forall i :: 0 <= i < |rows| && whereColumn in rows[i] && rows[i][whereColumn] == whereValue ==>
      r[i] == rows[i][setColumn := setValue]
  {
    seq(|rows|, i requires 0 <= i < |rows| =>
      if whereColumn in rows[i] && rows[i][whereColumn] == whereValue then rows[i][setColumn := setValue] else rows[i])
  }

  /** The values of one column, row by row. */
  function ColumnValues(rows: seq<Row>, column: string): (r: seq<Value>)
    requires forall i :: 0 <= i < |rows| ==> column in rows[i]
    ensures |r| == |rows|
    ensures forall v :: v in r <==> exists i :: 0 <= i < |rows| && rows[i][column] == v
  {
    var r := seq(|rows|, i requires 0 <= i < |rows| => rows[i][column]);
    assert forall i :: 0 <= i < |rows| ==> r[i] == rows[i][column];
    r
  }

  predicate NoDuplicates<T(==)>(s: seq<T>)
  {
    forall i, j :: 0 <= i < j < |s| ==> s[i] != s[j]
  }

  /** The distinct values of `s`, each once, in the order of their first occurrence. */
  function Distinct(s: seq<Value>): (r: seq<Value>)
    ensures NoDuplicates(r)
    ensures forall v :: v in r <==> v in s
  {
    if s == [] then []
    else
      var d := Distinct(s[..|s| - 1]);
      assert s == s[..|s| - 1] + [s[|s| - 1]];
      if s[|s| - 1] in d then d else d + [s[|s| - 1]]
  }

  /** The database connection, seen as a mutable map from table name to table. */
  class Store {
    var tables: map<string, Table>

    ghost predicate Valid()
      reads this
    {
      forall name :: name in tables ==> tables[name].WellFormed()
    }

    /** Whether the schema has table `table` with column `column`. */
    function HasColumn(table: string, column: string): bool
      reads this
    {
      table in tables && column in tables[table].columns
    }

    /** ALTER TABLE `table` ADD COLUMN `column` NULL; the store refuses a column that already exists. */
    method AddColumn(table: string, column: string)
      requires Valid() && table in tables && column !in tables[table].columns
      modifies this
      ensures Valid()
      ensures tables == old(tables)[table := WithColumn(old(tables)[table], column)]
    {
      tables := tables[table := WithColumn(tables[table], column)];
    }

    /** SELECT `first`, `second` FROM `table`, read in row order. */
    method SelectPairs(table: string, first: string, second: string) returns (result: seq<(Value, Value)>)
      requires Valid() && table in tables
      requires first in tables[table].columns && second in tables[table].columns
      ensures |result| == |tables[table].rows|
      ensures forall i :: 0 <= i < |result| ==>
        result[i] == (tables[table].rows[i][first], tables[table].rows[i][second])
    {
      var rows := tables[table].rows;
      result := seq(|rows|, i requires 0 <= i < |rows| => (rows[i][first], rows[i][second]));
    }

    /** SELECT DISTINCT `column` FROM `table`. */
    method SelectDistinct(table: string, column: string) returns (values: seq<Value>)
      requires Valid() && table in tables && column in tables[table].columns
      ensures values == Distinct(ColumnValues(tables[table].rows, column))
      ensures NoDuplicates(values)
      ensures forall v :: v in values <==> exists i :: 0 <= i < |tables[table].rows| && tables[table].rows[i][column] == v
    {
      var rows := tables[table].rows;
      ghost var all := ColumnValues(rows, column);
      values := [];
      var i := 0;
      while i < |rows|
        invariant 0 <= i <= |rows|
        invariant values == Distinct(all[..i])
      {
        assert all[..i + 1][..i] == all[..i];
        if rows[i][column] !in values {
          values := values + [rows[i][column]];
        }
        i := i + 1;
      }
      assert all[..|rows|] == all;
    }

    /** UPDATE `table` SET `setColumn` = `setValue` WHERE `whereColumn` = `whereValue`. */
    method Update(table: string, setColumn: string, setValue: Value, whereColumn: string, whereValue: Value)
      requires Valid() && table in tables
      requires setColumn in tables[table].columns && whereColumn in tables[table].columns
      modifies this
      ensures Valid()
      ensures tables == old(tables)[table :=
        Table(old(tables)[table].columns, UpdateRows(old(tables)[table].rows, setColumn, setValue, whereColumn, whereValue))]
    {
      var t := tables[table];
      tables := tables[table := Table(t.columns, UpdateRows(t.rows, setColumn, setValue, whereColumn, whereValue))];
    }
  }
}
