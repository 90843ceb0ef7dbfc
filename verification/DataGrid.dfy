/** The values of data grid settings: lists of rows, each a dictionary from column to cell. */
module DataGrid {
  import opened Text

  /** A value that is no string is known by its text, which is what `ToString` gives. */
  datatype Cell = NullCell | TextCell(text: string) | OtherCell(text: string)

  type Row = map<string, Cell>

  datatype Column = Column(name: string, isSecret: bool)

  /** The row has a value in the column that is not null. */
  predicate HasValue(row: Row, column: string) {
    column in row && !row[column].NullCell?
  }

  /** The names of the secret columns of a definition, in order. */
  function SecretColumns(columns: seq<Column>): seq<string> {
    if columns == [] then []
    else SecretColumns(columns[..|columns| - 1]) + if columns[|columns| - 1].isSecret then [columns[|columns| - 1].name] else []
  }

  ghost predicate IsSecretColumn(columns: seq<Column>, name: string) {
    exists k :: 0 <= k < |columns| && columns[k].name == name && columns[k].isSecret
  }

  /** The same of a definition that may be missing. */
  ghost predicate IsSecretIn(columns: Option<seq<Column>>, name: string) {
    columns.Some? && IsSecretColumn(columns.value, name)
  }

  ghost predicate HasSecretColumn(columns: Option<seq<Column>>) {
    columns.Some? && exists k :: 0 <= k < |columns.value| && columns.value[k].isSecret
  }

  lemma SecretColumnsSnoc(columns: seq<Column>, column: Column)
    ensures SecretColumns(columns + [column]) == SecretColumns(columns) + if column.isSecret then [column.name] else []
  {
    assert (columns + [column])[..|columns|] == columns;
  }

  /** The list holds the names that some secret column has. */
  lemma {:induction false} SecretColumnsAre(columns: seq<Column>, name: string)
    ensures name in SecretColumns(columns) <==> IsSecretColumn(columns, name)
  {
    if columns != [] {
      var n := |columns| - 1;
      SecretColumnsAre(columns[..n], name);
      if k :| 0 <= k < n && columns[..n][k].name == name && columns[..n][k].isSecret {
        assert columns[k].name == name && columns[k].isSecret;
      }
      if k :| 0 <= k < n && columns[k].name == name && columns[k].isSecret {
        assert columns[..n][k].name == name && columns[..n][k].isSecret;
      }
      assert columns[n].isSecret && columns[n].name == name ==> IsSecretColumn(columns, name);
    }
  }

  /** It has them in order and as often as there are such columns. */
  lemma {:induction false} SecretColumnsInOrder(a: seq<Column>, b: seq<Column>)
    ensures SecretColumns(a + b) == SecretColumns(a) + SecretColumns(b)
    ensures |b| == 1 ==> SecretColumns(b) == if b[0].isSecret then [b[0].name] else []
  {
    if b == [] {
      assert a + b == a;
    } else {
      var init, last := b[..|b| - 1], b[|b| - 1];
      assert b == init + [last] && a + b == a + init + [last];
      SecretColumnsInOrder(a, init);
      SecretColumnsSnoc(init, last);
      SecretColumnsSnoc(a + init, last);
    }
  }

  lemma NoSecretColumns(columns: seq<Column>)
    ensures SecretColumns(columns) != [] <==> exists k :: 0 <= k < |columns| && columns[k].isSecret
  {
    if SecretColumns(columns) != [] {
      SecretColumnsAre(columns, SecretColumns(columns)[0]);
    }
    if k :| 0 <= k < |columns| && columns[k].isSecret {
      SecretColumnsAre(columns, columns[k].name);
    }
  }

  /** A row as the dictionary object that the converters edit in place. */
  class GridRow {
    var cells: Row

    constructor (cells: Row)
      ensures this.cells == cells
    {
      this.cells := cells;
    }
  }

  ghost predicate DistinctRows(rows: seq<GridRow>) {
    forall i, j :: 0 <= i < j < |rows| ==> rows[i] != rows[j]
  }
}
