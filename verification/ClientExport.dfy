/**
 Full export and import of setting values
 (src/api/Fig.Api/Converters/ClientExportConverter.cs:87-128, 171-203, 236-262, and
 src/common/Fig.Contracts/ValueDataContractFactory.cs).

 The rows of a data grid are objects that the entity, its export and an import of that export
 in the same process share: exporting encrypts the entity's own rows.
 */
module ClientExport {
  import opened Text
  import opened DataGrid
  import opened Encryption

  // ----- values

  /** The type of a setting, as far as converting a value depends on it. */
  datatype Kind = StringKind | ScalarKind | GridKind

  /** Numbers, times and the like: their text, and how it is parsed for the type of the setting. */
  datatype Format<!V> = Format(render: V -> string, parse: string -> Option<V>)

  datatype Value<V> = NoValue | Text(text: Option<string>) | Scalar(scalar: Option<V>) | Grid(rows: Option<seq<GridRow>>)

  /** What a value says, with the cells of its rows instead of the row objects. */
  datatype Content<V> = NoContent | TextContent(text: Option<string>) | ScalarContent(scalar: Option<V>) | GridContent(rows: Option<seq<Row>>)

  function CellsOf(rows: seq<GridRow>): (r: seq<Row>)
    reads rows
    ensures |r| == |rows| && forall i :: 0 <= i < |rows| ==> r[i] == rows[i].cells
  {
    seq(|rows|, i requires 0 <= i < |rows| reads rows => rows[i].cells)
  }

  ghost function RowObjects<V>(value: Value<V>): seq<GridRow> {
    if value.Grid? && value.rows.Some? then value.rows.value else []
  }

  function ContentOf<V>(value: Value<V>): Content<V>
    reads RowObjects(value)
  {
    match value
    case NoValue => NoContent
    case Text(text) => TextContent(text)
    case Scalar(scalar) => ScalarContent(scalar)
    case Grid(rows) => GridContent(if rows.None? then None else Some(CellsOf(rows.value)))
  }

  /** A setting with its type, and the column definition if it has one. */
  datatype Setting<V> = Setting(name: string, isSecret: bool, kind: Kind, columns: Option<seq<Column>>, value: Value<V>)

  datatype Exported<V> = Exported(name: string, isSecret: bool, kind: Kind, columns: Option<seq<Column>>, value: Value<V>, isEncrypted: bool)

  /** The value is of the setting's type, and only grids have a definition with secret columns. */
  ghost predicate WellTyped<V>(kind: Kind, columns: Option<seq<Column>>, content: Content<V>) {
    (Secret(columns) != [] ==> kind == GridKind) &&
    match content
    case NoContent => true
    case TextContent(_) => kind == StringKind
    case ScalarContent(_) => kind == ScalarKind
    case GridContent(_) => kind == GridKind
  }

  function Secret(columns: Option<seq<Column>>): seq<string> {
    if columns.None? then [] else SecretColumns(columns.value)
  }

  /** What `Convert.ToString` gives for a list of rows. */
  const GRID_TEXT := "System.Collections.Generic.List`1[System.Collections.Generic.Dictionary`2[System.String,System.Object]]"

  /** The text of a value that is not null. */
  function TextOf<V>(format: Format<V>, content: Content<V>): Option<string> {
    match content
    case NoContent => None
    case TextContent(text) => text
    case ScalarContent(scalar) => if scalar.None? then None else Some(format.render(scalar.value))
    case GridContent(rows) => if rows.None? then None else Some(GRID_TEXT)
  }

  // ----- encrypting and decrypting rows, as functions

  function EncryptCell(c: Cipher, s: Secrets, row: Row, column: string): Row {
    if HasValue(row, column) then row[column := TextCell(Seal(c, s.current, row[column].text))] else row
  }

  function EncryptRow(c: Cipher, s: Secrets, row: Row, columns: seq<string>): Row {
    if columns == [] then row
    else EncryptCell(c, s, EncryptRow(c, s, row, columns[..|columns| - 1]), columns[|columns| - 1])
  }

  /** `DecryptForImport`: with a custom key if there is one. */
  function DecryptForImport(c: Cipher, s: Secrets, custom: Option<string>, text: Option<string>): Decrypted {
    if IsNullOrBlank(custom) then Decrypt(c, s, text, false, true)
    else Decrypt(c, Secrets(custom.value, None), text, false, true)
  }

  function DecryptCell(c: Cipher, s: Secrets, custom: Option<string>, row: Row, column: string): Option<Row> {
    if !HasValue(row, column) then Some(row)
    else match DecryptForImport(c, s, custom, Some(row[column].text))
      case Failed(_) => None
      case Plain(text) => Some(row[column := if text.None? then NullCell else TextCell(text.value)])
  }

  /** None stands for the exception when a cell cannot be decrypted. */
  function DecryptRow(c: Cipher, s: Secrets, custom: Option<string>, row: Row, columns: seq<string>): Option<Row> {
    if columns == [] then Some(row)
    else match DecryptRow(c, s, custom, row, columns[..|columns| - 1])
      case None => None
      case Some(r) => DecryptCell(c, s, custom, r, columns[|columns| - 1])
  }

  /** What an import decrypts with: the custom key alone, if there is one, and otherwise either
      configured secret; text that none of them opens is an error. */
  lemma ImportDecryptIs(c: Cipher, s: Secrets, custom: Option<string>, text: string, key: string)
    requires Lawful(c) && text != ""
    ensures (if custom.Some? && !IsBlank(custom.value) then key == custom.value
             else key == s.current || (s.previous.Some? && !IsBlank(s.previous.value) && key == s.previous.value)) && c.open(key, text).Opened? ==>
              DecryptForImport(c, s, custom, Some(text)) == Plain(Some(c.open(key, text).text))
    ensures (if custom.Some? && !IsBlank(custom.value) then !c.open(custom.value, text).Opened?
             else !c.open(s.current, text).Opened?
                  && (s.previous.Some? && !IsBlank(s.previous.value) ==> !c.open(s.previous.value, text).Opened?)) ==>
              DecryptForImport(c, s, custom, Some(text)).Failed?
  {
    DecryptIs(c, if IsNullOrBlank(custom) then s else Secrets(custom.value, None), text, false, true);
  }

  /** What becomes of one cell: it is decrypted once for each column of its name that is marked
      secret, unless it is null. */
  ghost function OpenedCell(c: Cipher, s: Secrets, custom: Option<string>, columns: seq<Column>, name: string, cell: Cell): (r: Option<Cell>)
    ensures r.Some? ==> (r.value.NullCell? <==> cell.NullCell?)
  {
    if columns == [] || cell.NullCell? then Some(cell)
    else
      var last, plain := columns[|columns| - 1], OpenedCell(c, s, custom, columns[..|columns| - 1], name, cell);
      if plain.None? || !last.isSecret || last.name != name then plain
      else match DecryptForImport(c, s, custom, Some(plain.value.text))
        case Failed(_) => None
        case Plain(text) => Some(TextCell(text.value))
  }

  /** The row is opened cell by cell, and not at all if a cell cannot be. */
  ghost predicate IsOpenedRow(c: Cipher, s: Secrets, custom: Option<string>, columns: seq<Column>, row: Row, left: Option<Row>) {
    && (left.None? <==> exists name :: name in row && OpenedCell(c, s, custom, columns, name, row[name]).None?)
    && (left.Some? ==> left.value.Keys == row.Keys &&
                         forall name :: name in row ==> OpenedCell(c, s, custom, columns, name, row[name]) == Some(left.value[name]))
  }

  lemma {:induction false} DecryptRowIs(c: Cipher, s: Secrets, custom: Option<string>, columns: seq<Column>, row: Row)
    ensures IsOpenedRow(c, s, custom, columns, row, DecryptRow(c, s, custom, row, SecretColumns(columns)))
  {
    if columns != [] {
      var init, last := columns[..|columns| - 1], columns[|columns| - 1];
      assert columns == init + [last];
      DecryptRowIs(c, s, custom, init, row);
      SecretColumnsSnoc(init, last);
      if last.isSecret {
        assert (SecretColumns(init) + [last.name])[..|SecretColumns(init)|] == SecretColumns(init);
        DecryptRowNext(c, s, custom, init, last, row);
      } else {
        assert SecretColumns(init) + [] == SecretColumns(init);
        assert forall name :: name in row ==>
          OpenedCell(c, s, custom, columns, name, row[name]) == OpenedCell(c, s, custom, init, name, row[name]);
      }
    }
  }

  lemma DecryptRowNext(c: Cipher, s: Secrets, custom: Option<string>, init: seq<Column>, last: Column, row: Row)
    requires last.isSecret && IsOpenedRow(c, s, custom, init, row, DecryptRow(c, s, custom, row, SecretColumns(init)))
    ensures IsOpenedRow(c, s, custom, init + [last], row,
                        match DecryptRow(c, s, custom, row, SecretColumns(init))
                        case None => None
                        case Some(r) => DecryptCell(c, s, custom, r, last.name))
  {
    var columns := init + [last];
    assert columns[..|columns| - 1] == init;
    forall name | name in row
      ensures OpenedCell(c, s, custom, init, name, row[name]).None? ==> OpenedCell(c, s, custom, columns, name, row[name]).None?
      ensures name != last.name || row[name].NullCell? ==>
                OpenedCell(c, s, custom, columns, name, row[name]) == OpenedCell(c, s, custom, init, name, row[name])
    {
    }
  }

  // ----- repeated columns cancel out

  function Times(columns: seq<string>, name: string): nat {
    if columns == [] then 0 else Times(columns[..|columns| - 1], name) + if columns[|columns| - 1] == name then 1 else 0
  }

  function Layers(c: Cipher, s: Secrets, text: string, n: nat): string {
    if n == 0 then text else Seal(c, s.current, Layers(c, s, text, n - 1))
  }

  /** A cell of a column that is named `times` times, with n layers of encryption. */
  function Wrapped(c: Cipher, s: Secrets, cell: Cell, times: nat, n: nat): Cell {
    if cell.NullCell? || times == 0 then cell else TextCell(Layers(c, s, cell.text, n))
  }

  lemma WrapOnce(c: Cipher, s: Secrets, cell: Cell, m: nat)
    ensures cell.NullCell? ==> Wrapped(c, s, cell, m, m).NullCell?
    ensures !cell.NullCell? ==>
      && !Wrapped(c, s, cell, m, m).NullCell?
      && Wrapped(c, s, cell, m + 1, m + 1) == TextCell(Seal(c, s.current, Wrapped(c, s, cell, m, m).text))
  {
    if !cell.NullCell? {
      assert Wrapped(c, s, cell, m, m).text == Layers(c, s, cell.text, m);
    }
  }

  lemma {:induction false} EncryptRowCells(c: Cipher, s: Secrets, row: Row, columns: seq<string>)
    ensures EncryptRow(c, s, row, columns).Keys == row.Keys
    ensures forall name :: name in row ==>
      EncryptRow(c, s, row, columns)[name] == Wrapped(c, s, row[name], Times(columns, name), Times(columns, name))
  {
    if columns != [] {
      var init, last := columns[..|columns| - 1], columns[|columns| - 1];
      EncryptRowCells(c, s, row, init);
      var before := EncryptRow(c, s, row, init);
      assert EncryptRow(c, s, row, columns) == EncryptCell(c, s, before, last);
      if last in row {
        WrapOnce(c, s, row[last], Times(init, last));
      }
    }
  }

  /** The secret that sealed the text opens it at the import. */
  ghost predicate CanOpen(s: Secrets, secrets: Secrets, custom: Option<string>) {
    if IsNullOrBlank(custom) then s.current in secrets.Keys() else custom == Some(s.current)
  }

  lemma ImportOpens(c: Cipher, s: Secrets, secrets: Secrets, custom: Option<string>, plain: string)
    requires Lawful(c) && CanOpen(s, secrets, custom)
    ensures DecryptForImport(c, secrets, custom, Some(Seal(c, s.current, plain))) == Plain(Some(plain))
  {
    if IsNullOrBlank(custom) {
      DecryptInvertsSeal(c, secrets, s.current, plain, false, true);
    } else {
      DecryptInvertsSeal(c, Secrets(s.current, None), s.current, plain, false, true);
    }
  }

  ghost predicate UnwrappedCell(c: Cipher, s: Secrets, cell: Cell, columns: seq<string>, done: seq<string>, name: string, r: Cell) {
    Times(done, name) <= Times(columns, name)
    && r == Wrapped(c, s, cell, Times(columns, name), Times(columns, name) - Times(done, name))
  }

  /** The row after its columns were encrypted and the first of them decrypted again. */
  ghost predicate Unwrapped(c: Cipher, s: Secrets, row: Row, columns: seq<string>, done: seq<string>, r: Row) {
    && r.Keys == row.Keys
    && forall name :: name in row ==> UnwrappedCell(c, s, row[name], columns, done, name, r[name])
  }

  lemma TimesSnoc(done: seq<string>, column: string, name: string)
    ensures Times(done + [column], name) == Times(done, name) + if column == name then 1 else 0
  {
    assert (done + [column])[..|done|] == done;
  }

  /** Decrypting takes the outermost of k layers away. */
  lemma PeelOne(c: Cipher, s: Secrets, secrets: Secrets, custom: Option<string>, cell: Cell, m: nat, k: nat)
    requires Lawful(c) && CanOpen(s, secrets, custom) && !cell.NullCell? && 0 < k <= m
    ensures Wrapped(c, s, cell, m, k).TextCell? && Wrapped(c, s, cell, m, k - 1) == TextCell(Layers(c, s, cell.text, k - 1))
    ensures DecryptForImport(c, secrets, custom, Some(Wrapped(c, s, cell, m, k).text)) == Plain(Some(Layers(c, s, cell.text, k - 1)))
  {
    ImportOpens(c, s, secrets, custom, Layers(c, s, cell.text, k - 1));
  }

  lemma UnwrapCell(c: Cipher, s: Secrets, secrets: Secrets, custom: Option<string>, cell: Cell, columns: seq<string>,
                   done: seq<string>, column: string, r: Row)
    requires Lawful(c) && CanOpen(s, secrets, custom) && column in r && Times(done, column) < Times(columns, column)
    requires UnwrappedCell(c, s, cell, columns, done, column, r[column])
    ensures var r' := DecryptCell(c, secrets, custom, r, column);
            && r'.Some? && r'.value == r[column := r'.value[column]]
            && UnwrappedCell(c, s, cell, columns, done + [column], column, r'.value[column])
  {
    TimesSnoc(done, column, column);
    if !cell.NullCell? {
      PeelOne(c, s, secrets, custom, cell, Times(columns, column), Times(columns, column) - Times(done, column));
    } else {
      assert r[column := NullCell] == r;
    }
  }

  lemma UnwrapOthers(c: Cipher, s: Secrets, row: Row, columns: seq<string>, done: seq<string>, column: string, r: Row, cell: Cell)
    requires Unwrapped(c, s, row, columns, done, r) && column in row
    requires UnwrappedCell(c, s, row[column], columns, done + [column], column, cell)
    ensures Unwrapped(c, s, row, columns, done + [column], r[column := cell])
  {
    forall name | name in row ensures UnwrappedCell(c, s, row[name], columns, done + [column], name, r[column := cell][name]) {
      TimesSnoc(done, column, name);
      assert UnwrappedCell(c, s, row[name], columns, done, name, r[name]);
    }
  }

  lemma UnwrapAbsent(c: Cipher, s: Secrets, row: Row, columns: seq<string>, done: seq<string>, column: string, r: Row)
    requires Unwrapped(c, s, row, columns, done, r) && column !in row
    ensures Unwrapped(c, s, row, columns, done + [column], r)
  {
    forall name | name in row ensures UnwrappedCell(c, s, row[name], columns, done + [column], name, r[name]) {
      TimesSnoc(done, column, name);
      assert UnwrappedCell(c, s, row[name], columns, done, name, r[name]);
    }
  }

  lemma UnwrapOne(c: Cipher, s: Secrets, secrets: Secrets, custom: Option<string>, row: Row, columns: seq<string>,
                  done: seq<string>, column: string, r: Row)
    requires Lawful(c) && CanOpen(s, secrets, custom) && Unwrapped(c, s, row, columns, done, r)
    requires column in row ==> Times(done, column) < Times(columns, column)
    ensures DecryptCell(c, secrets, custom, r, column).Some?
    ensures Unwrapped(c, s, row, columns, done + [column], DecryptCell(c, secrets, custom, r, column).value)
  {
    if column in row {
      UnwrapCell(c, s, secrets, custom, row[column], columns, done, column, r);
      var cell := DecryptCell(c, secrets, custom, r, column).value[column];
      UnwrapOthers(c, s, row, columns, done, column, r, cell);
    } else {
      UnwrapAbsent(c, s, row, columns, done, column, r);
    }
  }

  lemma {:induction false} TimesPrefix(columns: seq<string>, k: nat, name: string)
    requires k < |columns| && columns[k] == name
    ensures Times(columns[..k], name) < Times(columns, name)
  {
    var n := |columns| - 1;
    if k < n {
      assert columns[..n][..k] == columns[..k];
      TimesPrefix(columns[..n], k, name);
    }
  }

  lemma {:induction false} DecryptPrefix(c: Cipher, s: Secrets, secrets: Secrets, custom: Option<string>, row: Row, columns: seq<string>, k: nat)
    requires Lawful(c) && CanOpen(s, secrets, custom) && k <= |columns|
    ensures var r := DecryptRow(c, secrets, custom, EncryptRow(c, s, row, columns), columns[..k]);
            r.Some? && Unwrapped(c, s, row, columns, columns[..k], r.value)
  {
    var encrypted := EncryptRow(c, s, row, columns);
    if k == 0 {
      EncryptRowCells(c, s, row, columns);
    } else {
      DecryptPrefix(c, s, secrets, custom, row, columns, k - 1);
      TimesPrefix(columns, k - 1, columns[k - 1]);
      var r := DecryptRow(c, secrets, custom, encrypted, columns[..k - 1]).value;
      UnwrapOne(c, s, secrets, custom, row, columns, columns[..k - 1], columns[k - 1], r);
      assert columns[..k] == columns[..k - 1] + [columns[k - 1]];
      assert columns[..k][..k - 1] == columns[..k - 1];
    }
  }

  /** Secret cells come back as text; a cell that was no string keeps its text only. */
  function AsText(row: Row, columns: seq<string>): Row {
    map name | name in row :: if name in columns && row[name].OtherCell? then TextCell(row[name].text) else row[name]
  }

  lemma {:induction false} TimesZero(columns: seq<string>, name: string)
    ensures Times(columns, name) == 0 <==> name !in columns
  {
    if columns != [] {
      TimesZero(columns[..|columns| - 1], name);
      assert columns == columns[..|columns| - 1] + [columns[|columns| - 1]];
    }
  }

  lemma RowRoundTrip(c: Cipher, s: Secrets, secrets: Secrets, custom: Option<string>, row: Row, columns: seq<string>)
    requires Lawful(c) && CanOpen(s, secrets, custom)
    ensures DecryptRow(c, secrets, custom, EncryptRow(c, s, row, columns), columns) == Some(AsText(row, columns))
  {
    DecryptPrefix(c, s, secrets, custom, row, columns, |columns|);
    assert columns[..|columns|] == columns;
    var r := DecryptRow(c, secrets, custom, EncryptRow(c, s, row, columns), columns).value;
    forall name | name in row ensures r[name] == AsText(row, columns)[name] {
      TimesZero(columns, name);
    }
    assert r == AsText(row, columns);
  }

  // ----- whole settings, as functions

  function EncryptGrid(c: Cipher, s: Secrets, grid: seq<Row>, columns: seq<string>): seq<Row> {
    seq(|grid|, i requires 0 <= i < |grid| => EncryptRow(c, s, grid[i], columns))
  }

  function DecryptGrid(c: Cipher, s: Secrets, custom: Option<string>, grid: seq<Row>, columns: seq<string>): (r: Option<seq<Row>>)
    ensures r.Some? ==> |r.value| == |grid| && forall i :: 0 <= i < |grid| ==> DecryptRow(c, s, custom, grid[i], columns) == Some(r.value[i])
    ensures r.None? ==> exists i :: 0 <= i < |grid| && DecryptRow(c, s, custom, grid[i], columns).None?
  {
    if grid == [] then Some([])
    else match DecryptGrid(c, s, custom, grid[..|grid| - 1], columns)
      case None => None
      case Some(init) =>
        match DecryptRow(c, s, custom, grid[|grid| - 1], columns)
        case None => None
        case Some(last) => Some(init + [last])
  }

  function GridIn<V>(content: Content<V>): seq<Row> {
    if content.GridContent? && content.rows.Some? then content.rows.value else []
  }

  function WithGrid<V>(content: Content<V>, grid: seq<Row>): Content<V> {
    if content.GridContent? && content.rows.Some? then GridContent(Some(grid)) else content
  }

  /** What is exported, and whether it is marked as encrypted. */
  function ExportContent<V>(c: Cipher, s: Secrets, format: Format<V>, isSecret: bool, columns: Option<seq<Column>>, content: Content<V>)
    : (Content<V>, bool)
  {
    if isSecret && TextOf(format, content).Some? then (TextContent(Encrypt(c, s, TextOf(format, content))), true)
    else if Secret(columns) != [] then (WithGrid(content, EncryptGrid(c, s, GridIn(content), Secret(columns))), true)
    else (content, false)
  }

  /** `ValueDataContractFactory.CreateContract` on a string; None is the exception of a parser. */
  function CreateContract<V>(format: Format<V>, kind: Kind, text: string): Option<Content<V>> {
    match kind
    case StringKind => Some(TextContent(Some(text)))
    case ScalarKind => (match format.parse(text) case None => None case Some(v) => Some(ScalarContent(Some(v))))
    case GridKind => Some(GridContent(None))
  }

  /** What is imported; None stands for any of the exceptions. */
  function ImportContent<V>(c: Cipher, s: Secrets, custom: Option<string>, format: Format<V>, kind: Kind, columns: Option<seq<Column>>,
                            content: Content<V>, isEncrypted: bool): Option<Content<V>>
  {
    if !isEncrypted then Some(content)
    else if content.TextContent? then
      match DecryptForImport(c, s, custom, content.text)
      case Failed(_) => None
      case Plain(text) => if text.None? then Some(NoContent) else CreateContract(format, kind, text.value)
    else if Secret(columns) != [] then
      match DecryptGrid(c, s, custom, GridIn(content), Secret(columns))
      case None => None
      case Some(grid) => Some(WithGrid(content, grid))
    else Some(content)
  }

  // ----- the round trip

  function AsTextGrid(grid: seq<Row>, columns: seq<string>): seq<Row> {
    seq(|grid|, i requires 0 <= i < |grid| => AsText(grid[i], columns))
  }

  /** What comes back: a secret grid as no grid, the secret cells of other grids as text, a
      secret number or time as what its text parses to, and everything else as it was. None
      stands for the exception of a parser. */
  function ComesBack<V>(format: Format<V>, isSecret: bool, columns: Option<seq<Column>>, content: Content<V>): Option<Content<V>> {
    if content.GridContent? && content.rows.Some? then
      Some(GridContent(if isSecret then None else Some(AsTextGrid(content.rows.value, Secret(columns)))))
    else if isSecret && content.ScalarContent? && content.scalar.Some? then
      var parsed := format.parse(format.render(content.scalar.value));
      if parsed.None? then None else Some(ScalarContent(parsed))
    else Some(content)
  }

  lemma GridRoundTrip(c: Cipher, s: Secrets, secrets: Secrets, custom: Option<string>, grid: seq<Row>, columns: seq<string>)
    requires Lawful(c) && CanOpen(s, secrets, custom)
    ensures DecryptGrid(c, secrets, custom, EncryptGrid(c, s, grid, columns), columns) == Some(AsTextGrid(grid, columns))
  {
    var encrypted := EncryptGrid(c, s, grid, columns);
    forall i | 0 <= i < |grid| ensures DecryptRow(c, secrets, custom, encrypted[i], columns) == Some(AsText(grid[i], columns)) {
      RowRoundTrip(c, s, secrets, custom, grid[i], columns);
    }
    var decrypted := DecryptGrid(c, secrets, custom, encrypted, columns);
    assert decrypted.value == AsTextGrid(grid, columns);
  }

  lemma AsTextWithoutColumns(grid: seq<Row>)
    ensures AsTextGrid(grid, []) == grid
  {
    forall i | 0 <= i < |grid| ensures AsText(grid[i], []) == grid[i] {
    }
  }

  /** Importing an export where the secret that sealed it is among the keys gives exactly this
      value, and fails exactly if the text of a secret number or time does not parse. */
  lemma ExportThenImport<V(!new)>(c: Cipher, s: Secrets, secrets: Secrets, custom: Option<string>, format: Format<V>,
                                  kind: Kind, isSecret: bool, columns: Option<seq<Column>>, content: Content<V>)
    requires Lawful(c) && CanOpen(s, secrets, custom) && WellTyped(kind, columns, content)
    ensures var (exported, isEncrypted) := ExportContent(c, s, format, isSecret, columns, content);
            ImportContent(c, secrets, custom, format, kind, columns, exported, isEncrypted) == ComesBack(format, isSecret, columns, content)
  {
    if isSecret && TextOf(format, content).Some? {
      ImportOpens(c, s, secrets, custom, TextOf(format, content).value);
    } else if Secret(columns) != [] {
      GridRoundTrip(c, s, secrets, custom, GridIn(content), Secret(columns));
      DecryptNothing(c, secrets, custom, Secret(columns));
    } else {
      AsTextWithoutColumns(GridIn(content));
    }
  }

  lemma DecryptNothing(c: Cipher, s: Secrets, custom: Option<string>, columns: seq<string>)
    ensures DecryptGrid(c, s, custom, [], columns) == Some([])
  {
  }

  lemma SecretIs(columns: Option<seq<Column>>, name: string)
    ensures name in Secret(columns) <==> IsSecretIn(columns, name)
    ensures Secret(columns) != [] <==> HasSecretColumn(columns)
  {
    if columns.Some? {
      SecretColumnsAre(columns.value, name);
      NoSecretColumns(columns.value);
    }
  }

  /** The grid has a value that is no string in a secret column. */
  ghost predicate HasOtherSecret(grid: seq<Row>, columns: Option<seq<Column>>) {
    exists i, name :: 0 <= i < |grid| && name in grid[i] && OtherSecret(grid[i], name, columns)
  }

  ghost predicate OtherSecret(row: Row, name: string, columns: Option<seq<Column>>)
    requires name in row
  {
    IsSecretIn(columns, name) && row[name].OtherCell?
  }

  lemma AsTextSame(grid: seq<Row>, columns: Option<seq<Column>>)
    ensures AsTextGrid(grid, Secret(columns)) == grid <==> !HasOtherSecret(grid, columns)
  {
    forall name ensures name in Secret(columns) <==> IsSecretIn(columns, name) {
      SecretIs(columns, name);
    }
    if !HasOtherSecret(grid, columns) {
      forall i | 0 <= i < |grid| ensures AsText(grid[i], Secret(columns)) == grid[i] {
        forall name | name in grid[i] ensures AsText(grid[i], Secret(columns))[name] == grid[i][name] {
          assert !OtherSecret(grid[i], name, columns);
        }
      }
    } else {
      var i, name :| 0 <= i < |grid| && name in grid[i] && OtherSecret(grid[i], name, columns);
      assert AsText(grid[i], Secret(columns))[name] != grid[i][name];
      assert AsTextGrid(grid, Secret(columns))[i] == AsText(grid[i], Secret(columns));
    }
  }

  /** The number or time is one that its text says exactly. */
  predicate Exact<V(==)>(format: Format<V>, scalar: V) {
    format.parse(format.render(scalar)) == Some(scalar)
  }

  /** A value comes back unchanged exactly if it is not a grid that is secret as a whole, nor a
      grid with a value in a secret column that is no string, nor a secret number or time that
      its text does not say exactly. */
  lemma ComesBackUnchanged<V>(format: Format<V>, isSecret: bool, columns: Option<seq<Column>>, content: Content<V>)
    ensures ComesBack(format, isSecret, columns, content) == Some(content) <==>
              && !(content.GridContent? && content.rows.Some? && (isSecret || HasOtherSecret(content.rows.value, columns)))
              && !(isSecret && content.ScalarContent? && content.scalar.Some? && !Exact(format, content.scalar.value))
  {
    AsTextSame(GridIn(content), columns);
  }

  /** The rule by which the client library defines settings: only strings are secret, both as
      settings and as columns of a grid. */
  ghost predicate SecretsAreStrings<V>(kind: Kind, isSecret: bool, columns: Option<seq<Column>>, content: Content<V>) {
    && (isSecret ==> kind == StringKind)
    && !HasOtherSecret(GridIn(content), columns)
  }

  /** Under that rule every value survives an export and an import, whatever the formats. */
  lemma StringSecretsSurvive<V(!new)>(c: Cipher, s: Secrets, secrets: Secrets, custom: Option<string>, format: Format<V>,
                                kind: Kind, isSecret: bool, columns: Option<seq<Column>>, content: Content<V>)
    requires Lawful(c) && CanOpen(s, secrets, custom) && WellTyped(kind, columns, content)
    requires SecretsAreStrings(kind, isSecret, columns, content)
    ensures var (exported, isEncrypted) := ExportContent(c, s, format, isSecret, columns, content);
            ImportContent(c, secrets, custom, format, kind, columns, exported, isEncrypted) == Some(content)
  {
    ExportThenImport(c, s, secrets, custom, format, kind, isSecret, columns, content);
    ComesBackUnchanged(format, isSecret, columns, content);
  }

  // ----- the converter

  ghost predicate Encrypting(c: Cipher, s: Secrets, rows: seq<GridRow>, before: seq<Row>, columns: seq<string>, lo: nat, hi: nat)
    requires |before| == |rows|
    reads rows
  {
    forall i :: lo <= i < hi <= |rows| ==> rows[i].cells == EncryptRow(c, s, before[i], columns)
  }

  lemma EncryptMore(c: Cipher, s: Secrets, row: Row, columns: seq<string>, column: string)
    ensures EncryptRow(c, s, row, columns + [column]) == EncryptCell(c, s, EncryptRow(c, s, row, columns), column)
  {
    assert (columns + [column])[..|columns|] == columns;
  }

  method EncryptColumn(c: Cipher, s: Secrets, rows: seq<GridRow>, column: string, ghost before: seq<Row>, ghost columns: seq<string>)
    requires DistinctRows(rows) && |before| == |rows| && Encrypting(c, s, rows, before, columns, 0, |rows|)
    modifies rows
    ensures Encrypting(c, s, rows, before, columns + [column], 0, |rows|)
  {
    for i := 0 to |rows|
      invariant Encrypting(c, s, rows, before, columns + [column], 0, i)
      invariant Encrypting(c, s, rows, before, columns, i, |rows|)
    {
      EncryptMore(c, s, before[i], columns, column);
      var row := rows[i];
      if column in row.cells && !row.cells[column].NullCell? {
        row.cells := row.cells[column := TextCell(Seal(c, s.current, row.cells[column].text))];
      }
    }
  }

  method EncryptColumns(c: Cipher, s: Secrets, rows: seq<GridRow>, columns: seq<string>)
    requires DistinctRows(rows)
    modifies rows
    ensures CellsOf(rows) == EncryptGrid(c, s, old(CellsOf(rows)), columns)
  {
    ghost var before := CellsOf(rows);
    for k := 0 to |columns|
      invariant Encrypting(c, s, rows, before, columns[..k], 0, |rows|)
    {
      EncryptColumn(c, s, rows, columns[k], before, columns[..k]);
      assert columns[..k + 1] == columns[..k] + [columns[k]];
    }
    assert columns[..|columns|] == columns;
  }

  /** `Convert(SettingBusinessEntity)`: the export has the same row objects as the setting. */
  method Export<V>(c: Cipher, s: Secrets, format: Format<V>, setting: Setting<V>) returns (exported: Exported<V>)
    requires DistinctRows(RowObjects(setting.value))
    modifies RowObjects(setting.value)
    ensures exported.name == setting.name && exported.isSecret == setting.isSecret && exported.kind == setting.kind
    ensures exported.columns == setting.columns
    ensures exported.value.Grid? ==> exported.value == setting.value
    ensures (ContentOf(exported.value), exported.isEncrypted)
         == ExportContent(c, s, format, setting.isSecret, setting.columns, old(ContentOf(setting.value)))
    ensures Hides(c, s, format, setting.isSecret, setting.columns, old(ContentOf(setting.value)), ContentOf(exported.value), exported.isEncrypted)
  {
    ExportHidesSecrets(c, s, format, setting.isSecret, setting.columns, ContentOf(setting.value));
    var value, isEncrypted := setting.value, false;
    var text := ValueText(format, value);
    if setting.isSecret && text.Some? {
      value, isEncrypted := Text(Encrypt(c, s, text)), true;
    } else if setting.columns.Some? && SecretColumns(setting.columns.value) != [] {
      if value.Grid? && value.rows.Some? {
        EncryptColumns(c, s, value.rows.value, SecretColumns(setting.columns.value));
      }
      isEncrypted := true;
    }
    exported := Exported(setting.name, setting.isSecret, setting.kind, setting.columns, value, isEncrypted);
  }

  function ValueText<V>(format: Format<V>, value: Value<V>): Option<string> {
    match value
    case NoValue => None
    case Text(text) => text
    case Scalar(scalar) => if scalar.None? then None else Some(format.render(scalar.value))
    case Grid(rows) => if rows.None? then None else Some(GRID_TEXT)
  }

  ghost predicate Decrypting(c: Cipher, s: Secrets, custom: Option<string>, rows: seq<GridRow>, before: seq<Row>, columns: seq<string>, lo: nat, hi: nat)
    requires |before| == |rows|
    reads rows
  {
    forall i :: lo <= i < hi <= |rows| ==> DecryptRow(c, s, custom, before[i], columns) == Some(rows[i].cells)
  }

  lemma DecryptMore(c: Cipher, s: Secrets, custom: Option<string>, row: Row, columns: seq<string>, column: string)
    ensures DecryptRow(c, s, custom, row, columns + [column]) ==
              var r := DecryptRow(c, s, custom, row, columns);
              if r.None? then None else DecryptCell(c, s, custom, r.value, column)
  {
    assert (columns + [column])[..|columns|] == columns;
  }

  lemma {:induction false} DecryptFails(c: Cipher, s: Secrets, custom: Option<string>, row: Row, columns: seq<string>, k: nat)
    requires k <= |columns| && DecryptRow(c, s, custom, row, columns[..k]).None?
    ensures DecryptRow(c, s, custom, row, columns).None?
  {
    if k < |columns| {
      assert columns[..|columns| - 1][..k] == columns[..k];
      DecryptFails(c, s, custom, row, columns[..|columns| - 1], k);
    } else {
      assert columns[..k] == columns;
    }
  }

  method DecryptColumn(c: Cipher, s: Secrets, custom: Option<string>, rows: seq<GridRow>, column: string,
                       ghost before: seq<Row>, ghost columns: seq<string>) returns (ok: bool, ghost failed: nat)
    requires DistinctRows(rows) && |before| == |rows| && Decrypting(c, s, custom, rows, before, columns, 0, |rows|)
    modifies rows
    ensures ok ==> Decrypting(c, s, custom, rows, before, columns + [column], 0, |rows|)
    ensures !ok ==> failed < |rows| && DecryptRow(c, s, custom, before[failed], columns + [column]).None?
  {
    failed := 0;
    for i := 0 to |rows|
      invariant Decrypting(c, s, custom, rows, before, columns + [column], 0, i)
      invariant Decrypting(c, s, custom, rows, before, columns, i, |rows|)
    {
      DecryptMore(c, s, custom, before[i], columns, column);
      var row := rows[i];
      if column in row.cells && !row.cells[column].NullCell? {
        var decrypted := DecryptForImport(c, s, custom, Some(row.cells[column].text));
        if decrypted.Failed? {
          return false, i;
        }
        row.cells := row.cells[column := if decrypted.text.None? then NullCell else TextCell(decrypted.text.value)];
      }
    }
    ok := true;
  }

  method DecryptColumns(c: Cipher, s: Secrets, custom: Option<string>, rows: seq<GridRow>, columns: seq<string>) returns (ok: bool)
    requires DistinctRows(rows)
    modifies rows
    ensures ok <==> DecryptGrid(c, s, custom, old(CellsOf(rows)), columns).Some?
    ensures ok ==> DecryptGrid(c, s, custom, old(CellsOf(rows)), columns) == Some(CellsOf(rows))
  {
    ghost var before := CellsOf(rows);
    for k := 0 to |columns|
      invariant Decrypting(c, s, custom, rows, before, columns[..k], 0, |rows|)
    {
      assert columns[..k + 1] == columns[..k] + [columns[k]];
      ghost var failed;
      ok, failed := DecryptColumn(c, s, custom, rows, columns[k], before, columns[..k]);
      if !ok {
        DecryptFails(c, s, custom, before[failed], columns, k + 1);
        GridFails(c, s, custom, before, columns, failed);
        return;
      }
    }
    assert columns[..|columns|] == columns;
    GridOpens(c, s, custom, before, columns, CellsOf(rows));
    ok := true;
  }

  /** Each row of the grid is opened, and the grid not at all if a cell cannot be. */
  ghost predicate IsOpenedGrid(c: Cipher, s: Secrets, custom: Option<string>, columns: seq<Column>, grid: seq<Row>, left: Option<seq<Row>>) {
    && (left.None? <==> exists i :: 0 <= i < |grid| && IsOpenedRow(c, s, custom, columns, grid[i], None))
    && (left.Some? ==> |left.value| == |grid| &&
                       forall i :: 0 <= i < |grid| ==> IsOpenedRow(c, s, custom, columns, grid[i], Some(left.value[i])))
  }

  lemma DecryptGridIs(c: Cipher, s: Secrets, custom: Option<string>, columns: seq<Column>, grid: seq<Row>)
    ensures IsOpenedGrid(c, s, custom, columns, grid, DecryptGrid(c, s, custom, grid, SecretColumns(columns)))
  {
    var left := DecryptGrid(c, s, custom, grid, SecretColumns(columns));
    forall i | 0 <= i < |grid|
      ensures IsOpenedRow(c, s, custom, columns, grid[i], DecryptRow(c, s, custom, grid[i], SecretColumns(columns)))
      ensures left.Some? ==> !IsOpenedRow(c, s, custom, columns, grid[i], None)
    {
      DecryptRowIs(c, s, custom, columns, grid[i]);
      if left.Some? {
        assert DecryptRow(c, s, custom, grid[i], SecretColumns(columns)) == Some(left.value[i]);
      }
    }
  }

  lemma GridFails(c: Cipher, s: Secrets, custom: Option<string>, grid: seq<Row>, columns: seq<string>, i: nat)
    requires i < |grid| && DecryptRow(c, s, custom, grid[i], columns).None?
    ensures DecryptGrid(c, s, custom, grid, columns).None?
  {
  }

  lemma GridOpens(c: Cipher, s: Secrets, custom: Option<string>, grid: seq<Row>, columns: seq<string>, plain: seq<Row>)
    requires |plain| == |grid| && forall i :: 0 <= i < |grid| ==> DecryptRow(c, s, custom, grid[i], columns) == Some(plain[i])
    ensures DecryptGrid(c, s, custom, grid, columns) == Some(plain)
  {
    var r := DecryptGrid(c, s, custom, grid, columns);
    assert r.Some? ==> r.value == plain;
  }

  function ValueOf<V>(content: Content<V>): Value<V> {
    match content
    case NoContent => NoValue
    case TextContent(text) => Text(text)
    case ScalarContent(scalar) => Scalar(scalar)
    case GridContent(_) => Grid(None)
  }

  /** `Convert(SettingExportDataContract)`, as far as the value goes: the setting gets the row
      objects of the export. */
  method Import<V>(c: Cipher, s: Secrets, custom: Option<string>, format: Format<V>, exported: Exported<V>) returns (ok: bool, value: Value<V>)
    requires DistinctRows(RowObjects(exported.value))
    modifies RowObjects(exported.value)
    ensures ok <==> ImportContent(c, s, custom, format, exported.kind, exported.columns, old(ContentOf(exported.value)), exported.isEncrypted).Some?
    ensures ok ==> ImportContent(c, s, custom, format, exported.kind, exported.columns, old(ContentOf(exported.value)), exported.isEncrypted)
                   == Some(ContentOf(value))
    ensures ok && exported.value.Grid? ==> value == exported.value
    ensures exported.isEncrypted && exported.columns.Some? && exported.value.Grid? && exported.value.rows.Some? ==>
              IsOpenedGrid(c, s, custom, exported.columns.value, old(CellsOf(exported.value.rows.value)),
                           if ok then Some(CellsOf(exported.value.rows.value)) else None)
  {
    value := exported.value;
    if exported.columns.Some? && exported.value.Grid? && exported.value.rows.Some? {
      DecryptGridIs(c, s, custom, exported.columns.value, CellsOf(exported.value.rows.value));
    }
    if exported.isEncrypted && exported.value.Text? {
      var decrypted := DecryptForImport(c, s, custom, exported.value.text);
      if decrypted.Failed? {
        return false, value;
      }
      if decrypted.text.None? {
        return true, NoValue;
      }
      var contract := CreateContract(format, exported.kind, decrypted.text.value);
      if contract.None? {
        return false, value;
      }
      return true, ValueOf(contract.value);
    }
    if exported.isEncrypted && exported.columns.Some? && SecretColumns(exported.columns.value) != [] {
      if exported.value.Grid? && exported.value.rows.Some? {
        ok := DecryptColumns(c, s, custom, exported.value.rows.value, SecretColumns(exported.columns.value));
        return ok, value;
      }
      DecryptNothing(c, s, custom, SecretColumns(exported.columns.value));
    }
    ok := true;
  }

  ghost predicate IsSealed(c: Cipher, s: Secrets, text: string) {
    exists plain :: text == Seal(c, s.current, plain)
  }

  /** No export has a secret in the open: the text of a secret setting and every value in a
      secret column are encrypted under the current secret, and what has to be decrypted is
      marked; other cells are as they were. */
  lemma ExportHidesSecrets<V>(c: Cipher, s: Secrets, format: Format<V>, isSecret: bool, columns: Option<seq<Column>>, content: Content<V>)
    ensures var (exported, isEncrypted) := ExportContent(c, s, format, isSecret, columns, content);
            Hides(c, s, format, isSecret, columns, content, exported, isEncrypted)
  {
    SecretIs(columns, "");
    if TextOf(format, content).Some? {
      TextIs(format, content, TextOf(format, content).value);
    }
    if !isSecret && content.GridContent? && content.rows.Some? {
      forall i | 0 <= i < |content.rows.value|
        ensures HidesRow(c, s, content.rows.value[i], EncryptRow(c, s, content.rows.value[i], Secret(columns)), columns)
      {
        EncryptedRowHides(c, s, content.rows.value[i], columns);
      }
      AsEncrypted(c, s, content.rows.value);
    }
  }

  /** The text of a value that is not null: a string itself, a number or time as it is written. */
  ghost predicate Says<V>(format: Format<V>, content: Content<V>, text: string) {
    || content == TextContent(Some(text))
    || (content.ScalarContent? && content.scalar.Some? && text == format.render(content.scalar.value))
    || (content.GridContent? && content.rows.Some? && text == GRID_TEXT)
  }

  lemma TextIs<V>(format: Format<V>, content: Content<V>, text: string)
    ensures Says(format, content, text) <==> TextOf(format, content) == Some(text)
  {
  }

  /** What an export is of the value: the text of a secret setting that has one, sealed; otherwise the
      value, with every cell that is not null under a column marked as secret sealed. */
  ghost predicate Hides<V>(c: Cipher, s: Secrets, format: Format<V>, isSecret: bool, columns: Option<seq<Column>>, content: Content<V>,
                           exported: Content<V>, isEncrypted: bool) {
    if isSecret && exists text :: Says(format, content, text) then
      isEncrypted && exported.TextContent? && exists text :: Says(format, content, text) && exported.text == Some(Seal(c, s.current, text))
    else
      && (isEncrypted <==> HasSecretColumn(columns))
      && if content.GridContent? && content.rows.Some? then
           && exported.GridContent? && exported.rows.Some? && |exported.rows.value| == |content.rows.value|
           && forall i :: 0 <= i < |content.rows.value| ==> HidesRow(c, s, content.rows.value[i], exported.rows.value[i], columns)
         else exported == content
  }

  ghost predicate HidesRow(c: Cipher, s: Secrets, row: Row, exported: Row, columns: Option<seq<Column>>) {
    && exported.Keys == row.Keys
    && forall name :: name in row ==>
         if IsSecretIn(columns, name) && !row[name].NullCell? then exported[name].TextCell? && IsSealed(c, s, exported[name].text)
         else exported[name] == row[name]
  }

  lemma EncryptedRowHides(c: Cipher, s: Secrets, row: Row, columns: Option<seq<Column>>)
    ensures HidesRow(c, s, row, EncryptRow(c, s, row, Secret(columns)), columns)
  {
    EncryptRowCells(c, s, row, Secret(columns));
    var exported := EncryptRow(c, s, row, Secret(columns));
    forall name | name in row
      ensures if IsSecretIn(columns, name) && !row[name].NullCell? then exported[name].TextCell? && IsSealed(c, s, exported[name].text)
              else exported[name] == row[name]
    {
      SecretIs(columns, name);
      TimesZero(Secret(columns), name);
      if name in Secret(columns) && !row[name].NullCell? {
        var n := Times(Secret(columns), name);
        assert exported[name].text == Seal(c, s.current, Layers(c, s, row[name].text, n - 1));
      }
    }
  }

  lemma AsEncrypted(c: Cipher, s: Secrets, grid: seq<Row>)
    ensures EncryptGrid(c, s, grid, []) == grid
  {
  }

  /** Exporting a setting and importing the export gives the value that comes back, if one does.
      A grid keeps its row objects: the import also undoes what the export did to the entity. */
  method RoundTrip<V(!new)>(c: Cipher, s: Secrets, secrets: Secrets, custom: Option<string>, format: Format<V>, setting: Setting<V>)
    returns (ok: bool, value: Value<V>)
    requires Lawful(c) && CanOpen(s, secrets, custom)
    requires DistinctRows(RowObjects(setting.value)) && WellTyped(setting.kind, setting.columns, ContentOf(setting.value))
    modifies RowObjects(setting.value)
    ensures ok <==> ComesBack(format, setting.isSecret, setting.columns, old(ContentOf(setting.value))).Some?
    ensures ok ==> ComesBack(format, setting.isSecret, setting.columns, old(ContentOf(setting.value))) == Some(ContentOf(value))
    ensures ok && value.Grid? && value.rows.Some? ==> value == setting.value
  {
    ghost var before := ContentOf(setting.value);
    var exported := Export(c, s, format, setting);
    ExportThenImport(c, s, secrets, custom, format, setting.kind, setting.isSecret, setting.columns, before);
    ok, value := Import(c, secrets, custom, format, exported);
  }
}
