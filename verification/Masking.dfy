/**
 Masking and restoring the secret columns of data grids
 (src/api/Fig.Api/Converters/SettingConverter.cs:85-133).

 Both directions edit the row dictionaries they are given and pass the list on. The rows that
 are masked are the entity's own; the rows that are restored come from the request.
 */
module Masking {
  import opened Text
  import opened DataGrid

  const SECRET_PLACEHOLDER := "<SECRET>"

  const PLACEHOLDER: Cell := TextCell(SECRET_PLACEHOLDER)

  // ----- masking

  /** The cells that masking hides: text that is not blank. Other values and blank text stay. */
  predicate IsHidden(cell: Cell) {
    cell.TextCell? && !IsBlank(cell.text)
  }

  function MaskedCell(cell: Cell): Cell {
    if IsHidden(cell) then PLACEHOLDER else cell
  }

  function Masked(row: Row, columns: seq<string>): (r: Row)
    ensures r.Keys == row.Keys
  {
    map name | name in row :: if name in columns then MaskedCell(row[name]) else row[name]
  }

  /** Masking a column after others. */
  lemma MaskedMore(row: Row, columns: seq<string>, c: nat)
    requires c < |columns|
    ensures Masked(row, columns[..c + 1]) ==
      if columns[c] in row then Masked(row, columns[..c])[columns[c] := MaskedCell(Masked(row, columns[..c])[columns[c]])]
      else Masked(row, columns[..c])
  {
    assert columns[..c + 1] == columns[..c] + [columns[c]];
    assert IsHidden(PLACEHOLDER) by {
      assert !IsWhiteSpace(SECRET_PLACEHOLDER[0]);
    }
  }

  /** What is left of a secret column can be read: no text, only a blank or the placeholder. */
  lemma MaskingHides(row: Row, columns: seq<string>, name: string)
    requires name in row && name in columns && Masked(row, columns)[name].TextCell?
    ensures IsBlank(Masked(row, columns)[name].text) || Masked(row, columns)[name].text == SECRET_PLACEHOLDER
  {
  }

  /** In columns marked as secret, text that is not blank has become the placeholder; every other
      cell is as it was. */
  ghost predicate MaskedBy(columns: seq<Column>, before: Row, after: Row) {
    && after.Keys == before.Keys
    && forall name :: name in before ==>
         if IsSecretColumn(columns, name) && before[name].TextCell? && !IsBlank(before[name].text) then after[name] == TextCell("<SECRET>")
         else after[name] == before[name]
  }

  lemma MaskedIs(columns: seq<Column>, row: Row)
    ensures MaskedBy(columns, row, Masked(row, SecretColumns(columns)))
  {
    forall name | name in row ensures name in SecretColumns(columns) <==> IsSecretColumn(columns, name) {
      SecretColumnsAre(columns, name);
    }
  }

  /** `GetDataGridDataContract`. The rows handed in are themselves masked; the same row may be
      in the list several times. */
  method GetDataGridDataContract(value: Option<seq<GridRow>>, definition: Option<seq<Column>>) returns (contract: Option<seq<GridRow>>)
    modifies if value.Some? then value.value else []
    ensures contract == value
    ensures definition.Some? && value.Some? ==>
      forall row :: row in value.value ==> row.cells == Masked(old(row.cells), SecretColumns(definition.value))
    ensures definition.Some? && value.Some? ==> forall row :: row in value.value ==> MaskedBy(definition.value, old(row.cells), row.cells)
    ensures definition.None? && value.Some? ==> forall row :: row in value.value ==> row.cells == old(row.cells)
  {
    contract := value;
    if definition.None? || value.None? {
      return;
    }
    var columns := SecretColumns(definition.value);
    var rows := value.value;
    for c := 0 to |columns|
      invariant forall row :: row in rows ==> row.cells == Masked(old(row.cells), columns[..c])
    {
      for r := 0 to |rows|
        invariant forall row :: row in rows ==>
          row.cells == Masked(old(row.cells), if row in rows[..r] then columns[..c + 1] else columns[..c])
      {
        ghost var first := rows[..r];
        ghost var more := rows[..r + 1];
        assert more == first + [rows[r]];
        MaskedMore(old(rows[r].cells), columns, c);
        MaskRow(rows[r], columns[c]);
        MaskedAgain(old(rows[r].cells), columns, c);
      }
      assert rows[..|rows|] == rows;
    }
    assert columns[..|columns|] == columns;
    forall row | row in rows ensures MaskedBy(definition.value, old(row.cells), row.cells) {
      MaskedIs(definition.value, old(row.cells));
    }
  }

  lemma MaskedAgain(row: Row, columns: seq<string>, c: nat)
    requires c < |columns|
    ensures var more := Masked(row, columns[..c + 1]);
            (if columns[c] in more then more[columns[c] := MaskedCell(more[columns[c]])] else more) == more
  {
    MaskedMore(row, columns, c);
    assert IsHidden(PLACEHOLDER) by {
      assert !IsWhiteSpace(SECRET_PLACEHOLDER[0]);
    }
  }

  method MaskRow(row: GridRow, column: string)
    modifies row
    ensures row.cells ==
      if column in old(row.cells) then old(row.cells)[column := MaskedCell(old(row.cells)[column])] else old(row.cells)
  {
    if column in row.cells && IsHidden(row.cells[column]) {
      row.cells := row.cells[column := PLACEHOLDER];
    }
  }

  // ----- restoring

  /** The setting that a submitted grid replaces, as far as restoring reads it: its column
      definition and its value, which is null, a grid, or a value of another kind. */
  datatype Original = Original(definition: Option<seq<Column>>, value: OriginalValue)

  datatype OriginalValue = NoValue | OtherKind | GridOf(rows: seq<GridRow>)

  function OriginalCell(original: Option<Row>, name: string): Cell {
    if original.Some? && name in original.value then original.value[name] else NullCell
  }

  function Restored(row: Row, original: Option<Row>, columns: seq<string>): (r: Row)
    ensures r.Keys == row.Keys
  {
    map name | name in row :: if name in columns && row[name] == PLACEHOLDER then OriginalCell(original, name) else row[name]
  }

  /** In columns marked as secret, a placeholder has become the original cell, null if there is none;
      every other cell is as it was. */
  ghost predicate RestoredBy(columns: seq<Column>, before: Row, original: Option<Row>, after: Row) {
    && after.Keys == before.Keys
    && forall name :: name in before ==>
         after[name] == if !IsSecretColumn(columns, name) || before[name] != TextCell("<SECRET>") then before[name]
                        else if original.Some? && name in original.value then original.value[name]
                        else NullCell
  }

  lemma RestoredIs(columns: seq<Column>, row: Row, original: Option<Row>)
    ensures RestoredBy(columns, row, original, Restored(row, original, SecretColumns(columns)))
  {
    forall name | name in row ensures name in SecretColumns(columns) <==> IsSecretColumn(columns, name) {
      SecretColumnsAre(columns, name);
    }
  }

  function RestoredIn(row: Row, original: Option<Row>, column: string): Row {
    if column in row && row[column] == PLACEHOLDER then row[column := OriginalCell(original, column)] else row
  }

  lemma RestoredMore(row: Row, original: Option<Row>, columns: seq<string>, column: string)
    ensures Restored(row, original, columns + [column]) == RestoredIn(Restored(row, original, columns), original, column)
  {
  }

  /** Nothing is restored: there is no definition of columns, or the setting had no value. */
  predicate RestorationSkipped(original: Option<Original>) {
    original.None? || original.value.definition.None? || original.value.value.NoValue?
  }

  function RowsOf(original: Original): seq<GridRow> {
    if original.value.GridOf? then original.value.rows else []
  }

  /** The original row in the same place. */
  function RowAt(rows: seq<GridRow>, i: nat): Option<Row>
    reads rows
  {
    if i < |rows| then Some(rows[i].cells) else None
  }

  ghost predicate Apart(submitted: seq<GridRow>, stored: seq<GridRow>) {
    DistinctRows(submitted) && forall row :: row in submitted ==> row !in stored
  }

  method RestoreRow(row: GridRow, original: Option<Row>, column: string)
    modifies row
    ensures row.cells == RestoredIn(old(row.cells), original, column)
  {
    if column in row.cells && row.cells[column] == PLACEHOLDER {
      var cell := NullCell;
      if original.Some? && column in original.value {
        cell := original.value[column];
      }
      row.cells := row.cells[column := cell];
    }
  }

  /** The rows from lo to hi are what restoring the columns makes of the rows before. */
  ghost predicate RestoredRange(rows: seq<GridRow>, before: seq<Row>, originals: seq<Option<Row>>, columns: seq<string>, lo: nat, hi: nat)
    requires |before| == |originals| == |rows|
    reads rows
  {
    forall i :: lo <= i < hi <= |rows| ==> rows[i].cells == Restored(before[i], originals[i], columns)
  }

  ghost predicate OriginalsOf(stored: seq<GridRow>, originals: seq<Option<Row>>)
    reads stored
  {
    forall i :: 0 <= i < |originals| ==> originals[i] == RowAt(stored, i)
  }

  method RestoreNext(rows: seq<GridRow>, stored: seq<GridRow>, column: string, i: nat,
                     ghost before: seq<Row>, ghost originals: seq<Option<Row>>, ghost columns: seq<string>)
    requires Apart(rows, stored) && |before| == |originals| == |rows| && OriginalsOf(stored, originals) && i < |rows|
    requires RestoredRange(rows, before, originals, columns + [column], 0, i)
    requires RestoredRange(rows, before, originals, columns, i, |rows|)
    modifies rows[i]
    ensures OriginalsOf(stored, originals)
    ensures RestoredRange(rows, before, originals, columns + [column], 0, i + 1)
    ensures RestoredRange(rows, before, originals, columns, i + 1, |rows|)
  {
    RestoredMore(before[i], originals[i], columns, column);
    assert rows[i] in rows && rows[i] !in stored;
    RestoreRow(rows[i], RowAt(stored, i), column);
  }

  method RestoreColumn(rows: seq<GridRow>, stored: seq<GridRow>, column: string,
                       ghost before: seq<Row>, ghost originals: seq<Option<Row>>, ghost columns: seq<string>)
    requires Apart(rows, stored) && |before| == |originals| == |rows| && OriginalsOf(stored, originals)
    requires RestoredRange(rows, before, originals, columns, 0, |rows|)
    modifies rows
    ensures OriginalsOf(stored, originals)
    ensures RestoredRange(rows, before, originals, columns + [column], 0, |rows|)
  {
    for i := 0 to |rows|
      invariant OriginalsOf(stored, originals)
      invariant RestoredRange(rows, before, originals, columns + [column], 0, i)
      invariant RestoredRange(rows, before, originals, columns, i, |rows|)
    {
      RestoreNext(rows, stored, column, i, before, originals, columns);
    }
  }

  /** `GetDataGridBusinessEntity`. The submitted rows are other objects than the stored ones. */
  method GetDataGridBusinessEntity(value: Option<seq<GridRow>>, originalSetting: Option<Original>) returns (entity: Option<seq<GridRow>>)
    requires value.Some? && originalSetting.Some? ==> Apart(value.value, RowsOf(originalSetting.value))
    modifies if value.Some? then value.value else []
    ensures entity == value
    ensures value.Some? && (originalSetting.None? || originalSetting.value.definition.None? || originalSetting.value.value.NoValue?) ==>
      forall i :: 0 <= i < |value.value| ==> value.value[i].cells == old(value.value[i].cells)
    ensures value.Some? && !RestorationSkipped(originalSetting) ==>
      forall i :: 0 <= i < |value.value| ==>
        value.value[i].cells == Restored(old(value.value[i].cells), RowAt(RowsOf(originalSetting.value), i),
                                         SecretColumns(originalSetting.value.definition.value))
    ensures value.Some? && originalSetting.Some? && originalSetting.value.definition.Some? && !originalSetting.value.value.NoValue? ==>
      forall i :: 0 <= i < |value.value| ==>
        RestoredBy(originalSetting.value.definition.value, old(value.value[i].cells),
                   if originalSetting.value.value.GridOf? && i < |originalSetting.value.value.rows|
                   then Some(originalSetting.value.value.rows[i].cells) else None,
                   value.value[i].cells)
  {
    entity := value;
    if RestorationSkipped(originalSetting) || value.None? {
      return;
    }
    var columns := originalSetting.value.definition.value;
    RestoreColumns(value.value, RowsOf(originalSetting.value), SecretColumns(columns));
    forall i | 0 <= i < |value.value|
      ensures RestoredBy(columns, old(value.value[i].cells), RowAt(RowsOf(originalSetting.value), i), value.value[i].cells)
    {
      RestoredIs(columns, old(value.value[i].cells), RowAt(RowsOf(originalSetting.value), i));
    }
  }

  method RestoreColumns(rows: seq<GridRow>, stored: seq<GridRow>, columns: seq<string>)
    requires Apart(rows, stored)
    modifies rows
    ensures forall i :: 0 <= i < |rows| ==> rows[i].cells == Restored(old(rows[i].cells), RowAt(stored, i), columns)
  {
    ghost var before := seq(|rows|, i requires 0 <= i < |rows| reads rows => rows[i].cells);
    ghost var originals := seq(|rows|, i requires 0 <= i < |rows| reads stored => RowAt(stored, i));
    for c := 0 to |columns|
      invariant OriginalsOf(stored, originals)
      invariant RestoredRange(rows, before, originals, columns[..c], 0, |rows|)
    {
      RestoreColumn(rows, stored, columns[c], before, originals, columns[..c]);
      assert columns[..c + 1] == columns[..c] + [columns[c]];
    }
    assert columns[..|columns|] == columns;
    forall i | 0 <= i < |rows| ensures rows[i].cells == Restored(old(rows[i].cells), RowAt(stored, i), columns) {
      assert originals[i] == RowAt(stored, i);
    }
  }

  // ----- what the two give together

  /** Restoring a masked row against the row itself gives back every cell. */
  lemma RestoreUndoesMask(row: Row, columns: seq<string>)
    ensures Restored(Masked(row, columns), Some(row), columns) == row
  {
    var masked := Masked(row, columns);
    var restored := Restored(masked, Some(row), columns);
    forall name | name in row ensures restored[name] == row[name] {
      assert masked[name] == if name in columns then MaskedCell(row[name]) else row[name];
    }
  }

  function RowOf(grid: seq<Row>, i: nat): Option<Row> {
    if i < |grid| then Some(grid[i]) else None
  }

  /** The submitted grid as it is stored. */
  function Stored(submitted: seq<Row>, original: Option<seq<Row>>, columns: seq<string>): (r: seq<Row>)
    ensures |r| == |submitted|
    ensures forall i :: 0 <= i < |submitted| ==> r[i].Keys == submitted[i].Keys
  {
    if original.None? then submitted
    else seq(|submitted|, i requires 0 <= i < |submitted| => Restored(submitted[i], RowOf(original.value, i), columns))
  }

  function MaskedGrid(grid: seq<Row>, columns: seq<string>): seq<Row> {
    seq(|grid|, i requires 0 <= i < |grid| => Masked(grid[i], columns))
  }

  /** Submitting a masked grid unchanged stores the original grid. */
  lemma MaskThenRestoreIsIdentity(grid: seq<Row>, columns: seq<string>)
    ensures Stored(MaskedGrid(grid, columns), Some(grid), columns) == grid
  {
    forall i | 0 <= i < |grid| ensures Stored(MaskedGrid(grid, columns), Some(grid), columns)[i] == grid[i] {
      RestoreUndoesMask(grid[i], columns);
    }
  }

  ghost predicate CellIs(grid: seq<Row>, i: nat, name: string, cell: Cell) {
    i < |grid| && name in grid[i] && grid[i][name] == cell
  }

  /** Which cells of secret columns are stored as the placeholder: those submitted as the
      placeholder, if the original cell in the same place was the placeholder itself or the
      setting had no value at all. */
  lemma PlaceholderSurvives(submitted: seq<Row>, original: Option<seq<Row>>, columns: seq<string>, i: nat, name: string)
    requires i < |submitted| && name in submitted[i] && name in columns
    ensures CellIs(Stored(submitted, original, columns), i, name, PLACEHOLDER) <==>
              && submitted[i][name] == PLACEHOLDER
              && (original.None? || CellIs(original.value, i, name, PLACEHOLDER))
  {
    if original.Some? {
      assert Stored(submitted, original, columns)[i] == Restored(submitted[i], RowOf(original.value, i), columns);
    }
  }

  /** So a placeholder can be stored although the original was none: a grid submitted for a
      setting without a value keeps it. */
  lemma PlaceholderStoredWithoutOriginal()
    ensures Stored([map["password" := PLACEHOLDER]], None, ["password"]) == [map["password" := PLACEHOLDER]]
    ensures CellIs(Stored([map["password" := PLACEHOLDER]], None, ["password"]), 0, "password", PLACEHOLDER)
  {
    PlaceholderSurvives([map["password" := PLACEHOLDER]], None, ["password"], 0, "password");
  }
}
