/**
 The checkpoint stage of the encryption migration: the export inside a checkpoint carries
 secrets of its own, which `MigrateCheckPointData` re-encrypts in place
 (src/api/Fig.Api/Services/EncryptionMigrationService.cs, lines 415-569).
 */
module Checkpoints {
  import opened Text
  import opened DataGrid
  import opened Encryption
  import opened ReEncryption
  import opened Migration

  datatype SettingValue =
    | NoSettingValue
    | StringValue(text: Option<string>)
    | GridValue(rows: Option<seq<Row>>)
    | PlainValue(json: string)

  /** One exported setting; `columns` come from its data grid definition, if it has one. */
  datatype ExportSetting = ExportSetting(name: string, isSecret: bool, value: SettingValue, columns: Option<seq<Column>>)

  /** The settings of all clients of an export, in order; `rest` is everything else in it. */
  datatype Export = Export(settings: seq<ExportSetting>, rest: string)

  // ----- the migration as a function; None stands for an ApplicationException

  function Reseal(c: Cipher, s: Secrets, text: string): Option<string> {
    match Lenient(c, s, Some(text))
    case Failed(_) => None
    case Plain(plain) => Encrypt(c, s, plain)
  }

  function MigrateCell(c: Cipher, s: Secrets, row: Row, column: string): Option<Row> {
    if HasValue(row, column) then
      match Reseal(c, s, row[column].text)
      case None => None
      case Some(text) => Some(row[column := TextCell(text)])
    else Some(row)
  }

  /** The secret columns of one row, one after the other. */
  function MigrateRow(c: Cipher, s: Secrets, row: Row, columns: seq<string>): Option<Row> {
    if columns == [] then Some(row)
    else match MigrateRow(c, s, row, columns[..|columns| - 1])
      case None => None
      case Some(r) => MigrateCell(c, s, r, columns[|columns| - 1])
  }

  function MigrateRows(c: Cipher, s: Secrets, rows: seq<Row>, columns: seq<string>): (r: Option<seq<Row>>)
    ensures r.Some? ==> |r.value| == |rows|
    ensures r.Some? ==> forall i :: 0 <= i < |rows| ==> MigrateRow(c, s, rows[i], columns) == Some(r.value[i])
    ensures r.None? ==> exists i :: 0 <= i < |rows| && MigrateRow(c, s, rows[i], columns).None?
  {
    if rows == [] then Some([])
    else match MigrateRows(c, s, rows[..|rows| - 1], columns)
      case None => None
      case Some(init) =>
        match MigrateRow(c, s, rows[|rows| - 1], columns)
        case None => None
        case Some(last) => Some(init + [last])
  }

  function GridOf(e: ExportSetting): seq<Row> {
    if e.value.GridValue? && e.value.rows.Some? then e.value.rows.value else []
  }

  function ColumnsOf(e: ExportSetting): seq<string> {
    if e.columns.None? then [] else SecretColumns(e.columns.value)
  }

  function MigrateSetting(c: Cipher, s: Secrets, e: ExportSetting): Option<ExportSetting> {
    if e.value.StringValue? && e.isSecret && e.value.text.Some? then
      match Reseal(c, s, e.value.text.value)
      case None => None
      case Some(t) => Some(e.(value := StringValue(Some(t))))
    else if e.value.GridValue? && e.value.rows.Some? then
      match MigrateRows(c, s, e.value.rows.value, ColumnsOf(e))
      case None => None
      case Some(rows) => Some(e.(value := GridValue(Some(rows))))
    else Some(e)
  }

  function MigrateSettings(c: Cipher, s: Secrets, settings: seq<ExportSetting>): (r: Option<seq<ExportSetting>>)
    ensures r.Some? ==> |r.value| == |settings|
    ensures r.Some? ==> forall i :: 0 <= i < |settings| ==> MigrateSetting(c, s, settings[i]) == Some(r.value[i])
  {
    if settings == [] then Some([])
    else match MigrateSettings(c, s, settings[..|settings| - 1])
      case None => None
      case Some(init) =>
        match MigrateSetting(c, s, settings[|settings| - 1])
        case None => None
        case Some(last) => Some(init + [last])
  }

  /** Something in the setting will be re-encrypted. */
  predicate Touches(e: ExportSetting) {
    || (e.value.StringValue? && e.isSecret && e.value.text.Some?)
    || TouchesGrid(GridOf(e), ColumnsOf(e))
  }

  predicate TouchesGrid(grid: seq<Row>, columns: seq<string>) {
    exists i, k :: 0 <= i < |grid| && 0 <= k < |columns| && HasValue(grid[i], columns[k])
  }

  predicate TouchesAny(settings: seq<ExportSetting>) {
    exists i :: 0 <= i < |settings| && Touches(settings[i])
  }

  /** `MigrateCheckPointData` on the decrypted text of a checkpoint: text that is no export is
      left alone, and so is the text of an export without secrets. */
  function MigrateText(c: Cipher, s: Secrets, json: Json<Export>, text: Option<string>): Option<Option<string>> {
    if text.None? || json.parse(text.value).None? then Some(text)
    else
      var decoded := json.parse(text.value).value;
      match MigrateSettings(c, s, decoded.settings)
      case None => None
      case Some(settings) =>
        if TouchesAny(decoded.settings) then Some(Some(json.render(decoded.(settings := settings)))) else Some(text)
  }

  // ----- the migration as the loops perform it

  method MigrateCheckPointData(c: Cipher, s: Secrets, json: Json<Export>, exportAsJson: Option<string>)
    returns (ok: bool, result: Option<string>)
    ensures ok <==> MigrateText(c, s, json, exportAsJson).Some?
    ensures ok ==> MigrateText(c, s, json, exportAsJson) == Some(result)
    ensures Lawful(c) && JsonLaw(json) ==> (!ok <==> StuckText(c, s, json, exportAsJson))
    ensures Lawful(c) && JsonLaw(json) && ok ==> SameText(c, s, json, exportAsJson, result)
    ensures Lawful(c) && JsonLaw(json) && ok && NoSecretsIn(json, exportAsJson) ==> result == exportAsJson
  {
    if Lawful(c) && JsonLaw(json) {
      TextIs(c, s, json, exportAsJson);
    }
    if exportAsJson.None? || json.parse(exportAsJson.value).None? {
      return true, exportAsJson;
    }
    var decoded := json.parse(exportAsJson.value).value;
    var fine, settings, modified := MigrateExportSettings(c, s, decoded.settings);
    if !fine {
      return false, exportAsJson;
    }
    result := exportAsJson;
    if modified {
      result := Some(json.render(decoded.(settings := settings)));
    }
    return true, result;
  }

  /** The loops over the secret columns and, inside, over the rows of a grid. */
  method MigrateGrid(c: Cipher, s: Secrets, grid: seq<Row>, columns: seq<string>)
    returns (ok: bool, rows: seq<Row>, modified: bool)
    ensures ok <==> MigrateRows(c, s, grid, columns).Some?
    ensures ok ==> MigrateRows(c, s, grid, columns) == Some(rows)
    ensures ok ==> (modified <==> TouchesGrid(grid, columns))
  {
    rows, modified := grid, false;
    for k := 0 to |columns|
      invariant |rows| == |grid|
      invariant forall i :: 0 <= i < |grid| ==> MigrateRow(c, s, grid[i], columns[..k]) == Some(rows[i])
      invariant !modified ==> rows == grid && forall j, l :: 0 <= j < |grid| && 0 <= l < k ==> !HasValue(grid[j], columns[l])
      invariant modified ==> TouchesGrid(grid, columns)
    {
      assert columns[..k + 1][..k] == columns[..k];
      for i := 0 to |rows|
        invariant |rows| == |grid|
        invariant forall j :: 0 <= j < i ==> MigrateRow(c, s, grid[j], columns[..k + 1]) == Some(rows[j])
        invariant forall j :: i <= j < |grid| ==> MigrateRow(c, s, grid[j], columns[..k]) == Some(rows[j])
        invariant !modified ==> rows == grid && forall j, l :: 0 <= j < |grid| && 0 <= l < k ==> !HasValue(grid[j], columns[l])
        invariant !modified ==> forall j :: 0 <= j < i ==> !HasValue(grid[j], columns[k])
        invariant modified ==> TouchesGrid(grid, columns)
      {
        if HasValue(rows[i], columns[k]) {
          var decrypted := Lenient(c, s, Some(rows[i][columns[k]].text));
          if decrypted.Failed? {
            FailedRow(c, s, grid, columns, i, k);
            return false, rows, modified;
          }
          if decrypted.text.Some? {
            rows := rows[i := rows[i][columns[k] := TextCell(Seal(c, s.current, decrypted.text.value))]];
            modified := true;
          }
        }
      }
    }
    assert columns[..|columns|] == columns;
    assert MigrateRows(c, s, grid, columns).Some? && MigrateRows(c, s, grid, columns).value == rows;
    return true, rows, modified;
  }

  lemma {:induction false} FailedPrefix(c: Cipher, s: Secrets, row: Row, columns: seq<string>, k: nat)
    requires k <= |columns| && MigrateRow(c, s, row, columns[..k]).None?
    ensures MigrateRow(c, s, row, columns).None?
    decreases |columns| - k
  {
    if k < |columns| {
      assert columns[..k + 1][..k] == columns[..k];
      FailedPrefix(c, s, row, columns, k + 1);
    } else {
      assert columns[..k] == columns;
    }
  }

  lemma FailedRow(c: Cipher, s: Secrets, grid: seq<Row>, columns: seq<string>, i: nat, k: nat)
    requires i < |grid| && k < |columns|
    requires var r := MigrateRow(c, s, grid[i], columns[..k]); r.None? || MigrateCell(c, s, r.value, columns[k]).None?
    ensures MigrateRows(c, s, grid, columns).None?
  {
    assert columns[..k + 1][..k] == columns[..k];
    FailedPrefix(c, s, grid[i], columns, k + 1);
  }

  /** The loop over the settings of an export. */
  method MigrateExportSettings(c: Cipher, s: Secrets, all: seq<ExportSetting>)
    returns (ok: bool, settings: seq<ExportSetting>, modified: bool)
    ensures ok <==> MigrateSettings(c, s, all).Some?
    ensures ok ==> MigrateSettings(c, s, all) == Some(settings)
    ensures ok ==> (modified <==> TouchesAny(all))
  {
    settings, modified := [], false;
    for i := 0 to |all|
      invariant MigrateSettings(c, s, all[..i]) == Some(settings)
      invariant modified <==> TouchesAny(all[..i])
    {
      var fine, migrated, changed := MigrateOneSetting(c, s, all[i]);
      NextSetting(c, s, all, i);
      if !fine {
        return false, settings, modified;
      }
      settings := settings + [migrated];
      modified := modified || changed;
    }
    assert all[..|all|] == all;
    return true, settings, modified;
  }

  lemma NextSetting(c: Cipher, s: Secrets, all: seq<ExportSetting>, i: nat)
    requires i < |all| && MigrateSettings(c, s, all[..i]).Some?
    ensures MigrateSetting(c, s, all[i]).None? ==> MigrateSettings(c, s, all).None?
    ensures MigrateSetting(c, s, all[i]).Some? ==>
      MigrateSettings(c, s, all[..i + 1]) == Some(MigrateSettings(c, s, all[..i]).value + [MigrateSetting(c, s, all[i]).value])
    ensures TouchesAny(all[..i + 1]) <==> TouchesAny(all[..i]) || Touches(all[i])
  {
    assert all[..i + 1] == all[..i] + [all[i]];
    SettingsAppend(c, s, all[..i], all[i]);
    TouchesAppend(all[..i], all[i]);
    if MigrateSetting(c, s, all[i]).None? {
      FailedSettings(c, s, all, i + 1);
    }
  }

  lemma SettingsAppend(c: Cipher, s: Secrets, settings: seq<ExportSetting>, e: ExportSetting)
    requires MigrateSettings(c, s, settings).Some?
    ensures MigrateSettings(c, s, settings + [e])
            == match MigrateSetting(c, s, e)
               case None => None
               case Some(last) => Some(MigrateSettings(c, s, settings).value + [last])
  {
    assert (settings + [e])[..|settings + [e]| - 1] == settings;
  }

  lemma TouchesAppend(settings: seq<ExportSetting>, e: ExportSetting)
    ensures TouchesAny(settings + [e]) <==> TouchesAny(settings) || Touches(e)
  {
    var all := settings + [e];
    assert all[|settings|] == e;
    if i :| 0 <= i < |settings| && Touches(settings[i]) {
      assert Touches(all[i]);
    }
  }

  lemma {:induction false} FailedSettings(c: Cipher, s: Secrets, all: seq<ExportSetting>, k: nat)
    requires k <= |all| && MigrateSettings(c, s, all[..k]).None?
    ensures MigrateSettings(c, s, all).None?
    decreases |all| - k
  {
    if k < |all| {
      assert all[..k + 1][..k] == all[..k];
      FailedSettings(c, s, all, k + 1);
    } else {
      assert all[..k] == all;
    }
  }

  method MigrateOneSetting(c: Cipher, s: Secrets, e: ExportSetting) returns (ok: bool, setting: ExportSetting, modified: bool)
    ensures ok <==> MigrateSetting(c, s, e).Some?
    ensures ok ==> MigrateSetting(c, s, e) == Some(setting)
    ensures ok ==> (modified <==> Touches(e))
  {
    setting, modified := e, false;
    if setting.isSecret && setting.value.StringValue? {
      var decrypted := Lenient(c, s, setting.value.text);
      if decrypted.Failed? {
        return false, setting, modified;
      }
      if decrypted.text.Some? {
        setting := setting.(value := StringValue(Encrypt(c, s, decrypted.text)));
        modified := true;
      }
    }
    if setting.columns.Some? && SecretColumns(setting.columns.value) != [] {
      if setting.value.GridValue? && setting.value.rows.Some? {
        var fine, rows, changed := MigrateGrid(c, s, setting.value.rows.value, SecretColumns(setting.columns.value));
        if !fine {
          return false, setting, modified;
        }
        setting := setting.(value := GridValue(Some(rows)));
        modified := modified || changed;
      }
    } else {
      NoColumns(c, s, GridOf(e));
    }
    return true, setting, modified;
  }

  lemma {:induction false} NoColumns(c: Cipher, s: Secrets, rows: seq<Row>)
    ensures MigrateRows(c, s, rows, []) == Some(rows)
  {
    if rows != [] {
      NoColumns(c, s, rows[..|rows| - 1]);
      assert rows == rows[..|rows| - 1] + [rows[|rows| - 1]];
    }
  }

  // ----- what a checkpoint says

  /** Reads a cell of a secret column; None if it cannot be read. */
  function ReadCell(c: Cipher, s: Secrets, cell: Cell, fallbackFirst: bool): Option<Cell> {
    if cell.NullCell? then Some(cell)
    else match Decrypt(c, s, Some(cell.text), fallbackFirst, false)
      case Failed(_) => None
      case Plain(plain) => Some(TextCell(plain.value))
  }

  ghost function ReadRow(c: Cipher, s: Secrets, row: Row, columns: Option<seq<Column>>, fallbackFirst: bool): map<string, Option<Cell>> {
    map k | k in row :: if IsSecretIn(columns, k) then ReadCell(c, s, row[k], fallbackFirst) else Some(row[k])
  }

  datatype Reading =
    | ReadText(text: Decrypted)
    | ReadGrid(rows: seq<map<string, Option<Cell>>>)
    | ReadOther(value: SettingValue)

  ghost function ReadSetting(c: Cipher, s: Secrets, e: ExportSetting, fallbackFirst: bool): Reading {
    if e.value.StringValue? && e.isSecret then ReadText(Decrypt(c, s, e.value.text, fallbackFirst, false))
    else if e.value.GridValue? && e.value.rows.Some? then
      ReadGrid(seq(|e.value.rows.value|, i requires 0 <= i < |e.value.rows.value| =>
        ReadRow(c, s, e.value.rows.value[i], e.columns, fallbackFirst)))
    else ReadOther(e.value)
  }

  /** The text is the plain text of the other, sealed under the current secret. */
  ghost predicate SealedAnew(c: Cipher, s: Secrets, text: string, text': string) {
    var plain := Decrypt(c, s, Some(text), true, false);
    plain.Plain? && plain.text.Some? && text' == Seal(c, s.current, plain.text.value)
  }

  /** All cells that are not null under a column marked secret are sealed anew, no other changes. */
  ghost predicate SealedRow(c: Cipher, s: Secrets, columns: Option<seq<Column>>, row: Row, row': Row) {
    && row'.Keys == row.Keys
    && forall k :: k in row ==>
         if IsSecretIn(columns, k) && !row[k].NullCell? then row'[k].TextCell? && SealedAnew(c, s, row[k].text, row'[k].text)
         else row'[k] == row[k]
  }

  /** So is the text of a secret string; everything else in the setting is what it was. */
  ghost predicate SealedSetting(c: Cipher, s: Secrets, e: ExportSetting, e': ExportSetting) {
    && e' == e.(value := e'.value)
    && if e.value.StringValue? && e.isSecret && e.value.text.Some? then
         e'.value.StringValue? && e'.value.text.Some? && SealedAnew(c, s, e.value.text.value, e'.value.text.value)
       else if e.value.GridValue? && e.value.rows.Some? then
         && e'.value.GridValue? && e'.value.rows.Some? && |e'.value.rows.value| == |e.value.rows.value|
         && forall i :: 0 <= i < |e.value.rows.value| ==> SealedRow(c, s, e.columns, e.value.rows.value[i], e'.value.rows.value[i])
       else e'.value == e.value
  }

  /** The second setting is the first with its secrets sealed anew, and its value reads the same:
      e' under the current secret alone and, in either order, with both; e with both. */
  ghost predicate SameSetting(c: Cipher, s: Secrets, e: ExportSetting, e': ExportSetting) {
    && SealedSetting(c, s, e, e')
    && forall first {:trigger ReadSetting(c, s, e', first)} ::
         ReadSetting(c, Alone(s), e', first) == ReadSetting(c, s, e', first) == ReadSetting(c, s, e, true)
  }

  lemma ResealReadsSame(c: Cipher, s: Secrets, text: string, fallbackFirst: bool)
    requires Lawful(c) && Reseal(c, s, text).Some?
    ensures var text' := Reseal(c, s, text).value;
            && Lenient(c, s, Some(text)).Plain?
            && Decrypt(c, Alone(s), Some(text'), fallbackFirst, false) == Lenient(c, s, Some(text))
            && Decrypt(c, s, Some(text'), fallbackFirst, false) == Lenient(c, s, Some(text))
            && Reseal(c, s, text') == Some(text')
  {
    ResealedReadsSame(c, s, Some(text), fallbackFirst, false);
    ResealedReadsSame(c, s, Some(text), true, false);
  }

  /** What migrating a row does to each of its cells, even when a column is listed twice: a
      second pass finds what the first one wrote and writes it again. */
  lemma {:induction false} MigratedRow(c: Cipher, s: Secrets, row: Row, columns: seq<string>, k: string)
    requires Lawful(c) && MigrateRow(c, s, row, columns).Some?
    ensures var row' := MigrateRow(c, s, row, columns).value;
            && row'.Keys == row.Keys
            && (k in row && (k !in columns || row[k].NullCell?) ==> row'[k] == row[k])
            && (k in row && k in columns && !row[k].NullCell? ==>
                  Reseal(c, s, row[k].text).Some? && row'[k] == TextCell(Reseal(c, s, row[k].text).value))
  {
    if columns != [] {
      var init, last := columns[..|columns| - 1], columns[|columns| - 1];
      assert columns == init + [last];
      MigratedRow(c, s, row, init, k);
      if k == last && k in row && k in init && !row[k].NullCell? {
        ResealReadsSame(c, s, row[k].text, true);
      }
    }
  }

  lemma ColumnsAre(e: ExportSetting, name: string)
    ensures name in ColumnsOf(e) <==> IsSecretIn(e.columns, name)
  {
    if e.columns.Some? {
      SecretColumnsAre(e.columns.value, name);
    }
  }

  lemma MigratedRowIs(c: Cipher, s: Secrets, e: ExportSetting, row: Row)
    requires Lawful(c) && MigrateRow(c, s, row, ColumnsOf(e)).Some?
    ensures SealedRow(c, s, e.columns, row, MigrateRow(c, s, row, ColumnsOf(e)).value)
  {
    MigratedRow(c, s, row, ColumnsOf(e), "");
    forall k | k in row
      ensures var cell' := MigrateRow(c, s, row, ColumnsOf(e)).value[k];
              if IsSecretIn(e.columns, k) && !row[k].NullCell? then cell'.TextCell? && SealedAnew(c, s, row[k].text, cell'.text)
              else cell' == row[k]
    {
      MigratedRow(c, s, row, ColumnsOf(e), k);
      ColumnsAre(e, k);
    }
  }

  /** What the migration does to a setting: it seals anew what is marked secret, and nothing else. */
  lemma MigratedSettingIs(c: Cipher, s: Secrets, e: ExportSetting)
    requires Lawful(c) && MigrateSetting(c, s, e).Some?
    ensures SealedSetting(c, s, e, MigrateSetting(c, s, e).value)
  {
    if e.value.GridValue? && e.value.rows.Some? {
      forall i | 0 <= i < |e.value.rows.value|
        ensures SealedRow(c, s, e.columns, e.value.rows.value[i], MigrateSetting(c, s, e).value.value.rows.value[i])
      {
        MigratedRowIs(c, s, e, e.value.rows.value[i]);
      }
    }
  }

  lemma RowPreserved(c: Cipher, s: Secrets, e: ExportSetting, row: Row, fallbackFirst: bool)
    requires Lawful(c) && MigrateRow(c, s, row, ColumnsOf(e)).Some?
    ensures var row', columns := MigrateRow(c, s, row, ColumnsOf(e)).value, e.columns;
            && ReadRow(c, Alone(s), row', columns, fallbackFirst) == ReadRow(c, s, row, columns, true)
            && ReadRow(c, s, row', columns, fallbackFirst) == ReadRow(c, s, row, columns, true)
  {
    var row', columns := MigrateRow(c, s, row, ColumnsOf(e)).value, e.columns;
    MigratedRow(c, s, row, ColumnsOf(e), "");
    forall k | k in row
      ensures ReadRow(c, Alone(s), row', columns, fallbackFirst)[k] == ReadRow(c, s, row, columns, true)[k]
      ensures ReadRow(c, s, row', columns, fallbackFirst)[k] == ReadRow(c, s, row, columns, true)[k]
    {
      MigratedRow(c, s, row, ColumnsOf(e), k);
      ColumnsAre(e, k);
      if k in ColumnsOf(e) && !row[k].NullCell? {
        ResealReadsSame(c, s, row[k].text, fallbackFirst);
      }
    }
  }

  lemma SettingPreserved(c: Cipher, s: Secrets, e: ExportSetting)
    requires Lawful(c) && MigrateSetting(c, s, e).Some?
    ensures SameSetting(c, s, e, MigrateSetting(c, s, e).value)
  {
    var e' := MigrateSetting(c, s, e).value;
    MigratedSettingIs(c, s, e);
    forall first
      ensures ReadSetting(c, Alone(s), e', first) == ReadSetting(c, s, e', first) == ReadSetting(c, s, e, true)
    {
      if e.value.StringValue? && e.isSecret {
        if e.value.text.Some? { ResealReadsSame(c, s, e.value.text.value, first); }
      } else if e.value.GridValue? && e.value.rows.Some? {
        var rows, columns := e.value.rows.value, e.columns;
        forall i | 0 <= i < |rows|
          ensures ReadRow(c, Alone(s), e'.value.rows.value[i], columns, first) == ReadRow(c, s, rows[i], columns, true)
          ensures ReadRow(c, s, e'.value.rows.value[i], columns, first) == ReadRow(c, s, rows[i], columns, true)
        {
          RowPreserved(c, s, e, rows[i], first);
        }
      }
    }
  }

  datatype CheckpointRow = CheckpointRow(exportAsJson: Option<string>, lastEncrypted: int)

  function DecryptCheckpoint(c: Cipher, s: Secrets, r: CheckpointRow): Option<CheckpointRow> {
    match Lenient(c, s, r.exportAsJson)
    case Failed(_) => None
    case Plain(text) => Some(r.(exportAsJson := text))
  }

  function PrepareCheckpoint(c: Cipher, s: Secrets, json: Json<Export>, r: CheckpointRow): Option<CheckpointRow> {
    match MigrateText(c, s, json, r.exportAsJson)
    case None => None
    case Some(text) => Some(r.(exportAsJson := text))
  }

  /** The same field holds the plain text in memory and the encrypted text in the database. */
  function CheckpointKind(c: Cipher, s: Secrets, json: Json<Export>): Kind<CheckpointRow, CheckpointRow> {
    Kind((r: CheckpointRow) => r.lastEncrypted,
         (r: CheckpointRow) => r,
         (r: CheckpointRow) => DecryptCheckpoint(c, s, r),
         (r: CheckpointRow) => PrepareCheckpoint(c, s, json, r),
         (r: CheckpointRow, now: int) => CheckpointRow(Encrypt(c, s, r.exportAsJson), now),
         (r: CheckpointRow) => r)
  }

  /** The outer texts read as `text` and `text'`: text that is no export is kept to the letter,
      an export keeps its settings, each with a value that reads the same, and all the rest. */
  ghost predicate SameText(c: Cipher, s: Secrets, json: Json<Export>, text: Option<string>, text': Option<string>) {
    if text.None? || json.parse(text.value).None? then text' == text
    else
      && text'.Some? && json.parse(text'.value).Some?
      && var before, after := json.parse(text.value).value, json.parse(text'.value).value;
      && after.rest == before.rest && |after.settings| == |before.settings|
      && forall i :: 0 <= i < |before.settings| ==> SameSetting(c, s, before.settings[i], after.settings[i])
  }

  ghost predicate SameCheckpoint(c: Cipher, s: Secrets, json: Json<Export>, r: CheckpointRow, r': CheckpointRow) {
    && Lenient(c, s, r.exportAsJson).Plain?
    && forall first {:trigger Decrypt(c, s, r'.exportAsJson, first, false)} ::
         && Decrypt(c, Alone(s), r'.exportAsJson, first, false) == Decrypt(c, s, r'.exportAsJson, first, false)
         && Decrypt(c, s, r'.exportAsJson, first, false).Plain?
         && SameText(c, s, json, Lenient(c, s, r.exportAsJson).text, Decrypt(c, s, r'.exportAsJson, first, false).text)
  }

  lemma TextPreserved(c: Cipher, s: Secrets, json: Json<Export>, text: Option<string>)
    requires Lawful(c) && JsonLaw(json) && MigrateText(c, s, json, text).Some?
    ensures SameText(c, s, json, text, MigrateText(c, s, json, text).value)
  {
    if text.Some? && json.parse(text.value).Some? {
      var decoded := json.parse(text.value).value;
      var settings := MigrateSettings(c, s, decoded.settings).value;
      forall i | 0 <= i < |settings|
        ensures SameSetting(c, s, decoded.settings[i], settings[i])
        ensures !TouchesAny(decoded.settings) ==> settings[i] == decoded.settings[i]
      {
        SettingPreserved(c, s, decoded.settings[i]);
        if !TouchesAny(decoded.settings) {
          UntouchedSetting(c, s, decoded.settings[i]);
        }
      }
      assert !TouchesAny(decoded.settings) ==> settings == decoded.settings;
    }
  }

  /** Something in the setting is secret and not null. */
  ghost predicate HasSecrets(e: ExportSetting) {
    || (e.value.StringValue? && e.isSecret && e.value.text.Some?)
    || (e.value.GridValue? && e.value.rows.Some? &&
        exists i, name :: 0 <= i < |e.value.rows.value| && IsSecretIn(e.columns, name) && HasValue(e.value.rows.value[i], name))
  }

  ghost predicate NoSecretsIn(json: Json<Export>, text: Option<string>) {
    text.Some? && json.parse(text.value).Some? ==>
      var settings := json.parse(text.value).value.settings; forall i :: 0 <= i < |settings| ==> !HasSecrets(settings[i])
  }

  lemma TouchesIs(e: ExportSetting)
    ensures Touches(e) <==> HasSecrets(e)
  {
    var grid, columns := GridOf(e), ColumnsOf(e);
    if i, name :| 0 <= i < |grid| && IsSecretIn(e.columns, name) && HasValue(grid[i], name) {
      ColumnsAre(e, name);
      var k :| 0 <= k < |columns| && columns[k] == name;
      assert HasValue(grid[i], columns[k]);
    }
    if i, k :| 0 <= i < |grid| && 0 <= k < |columns| && HasValue(grid[i], columns[k]) {
      ColumnsAre(e, columns[k]);
    }
  }

  ghost predicate StuckText(c: Cipher, s: Secrets, json: Json<Export>, text: Option<string>) {
    text.Some? && json.parse(text.value).Some? && StuckExport(c, s, json.parse(text.value).value.settings)
  }

  /** The text of an export fails exactly if something in it is stuck; it is left to the letter if
      nothing in it is secret, and otherwise says the same. */
  lemma TextIs(c: Cipher, s: Secrets, json: Json<Export>, text: Option<string>)
    requires Lawful(c) && JsonLaw(json)
    ensures MigrateText(c, s, json, text).None? <==> StuckText(c, s, json, text)
    ensures MigrateText(c, s, json, text).Some? ==> SameText(c, s, json, text, MigrateText(c, s, json, text).value)
    ensures NoSecretsIn(json, text) && MigrateText(c, s, json, text).Some? ==> MigrateText(c, s, json, text).value == text
  {
    if text.Some? && json.parse(text.value).Some? {
      var settings := json.parse(text.value).value.settings;
      SettingsStop(c, s, settings);
      forall i | 0 <= i < |settings| ensures Touches(settings[i]) <==> HasSecrets(settings[i]) {
        TouchesIs(settings[i]);
      }
    }
    if MigrateText(c, s, json, text).Some? {
      TextPreserved(c, s, json, text);
    }
  }

  lemma UntouchedSetting(c: Cipher, s: Secrets, e: ExportSetting)
    requires !Touches(e)
    ensures MigrateSetting(c, s, e) == Some(e)
  {
    if e.value.GridValue? && e.value.rows.Some? {
      UntouchedRows(c, s, e.value.rows.value, ColumnsOf(e));
    }
  }

  lemma {:induction false} UntouchedRows(c: Cipher, s: Secrets, rows: seq<Row>, columns: seq<string>)
    requires !TouchesGrid(rows, columns)
    ensures MigrateRows(c, s, rows, columns) == Some(rows)
  {
    if rows != [] {
      var init, last := rows[..|rows| - 1], rows[|rows| - 1];
      forall i, k | 0 <= i < |init| && 0 <= k < |columns| ensures !HasValue(init[i], columns[k]) {
        assert init[i] == rows[i];
      }
      UntouchedRows(c, s, init, columns);
      UntouchedRow(c, s, last, columns);
      assert rows == init + [last];
    }
  }

  lemma {:induction false} UntouchedRow(c: Cipher, s: Secrets, row: Row, columns: seq<string>)
    requires forall k :: 0 <= k < |columns| ==> !HasValue(row, columns[k])
    ensures MigrateRow(c, s, row, columns) == Some(row)
  {
    if columns != [] {
      UntouchedRow(c, s, row, columns[..|columns| - 1]);
    }
  }

  lemma CheckpointPreserved(c: Cipher, s: Secrets, json: Json<Export>, date: int, r: CheckpointRow, r': CheckpointRow)
    requires Lawful(c) && JsonLaw(json) && Migrated(CheckpointKind(c, s, json), date, r, r')
    ensures SameCheckpoint(c, s, json, r, r')
  {
    var text := Lenient(c, s, r.exportAsJson).text;
    var text' := MigrateText(c, s, json, text).value;
    TextPreserved(c, s, json, text);
    assert r'.exportAsJson == Encrypt(c, s, text');
    if text'.Some? {
      forall first ensures Decrypt(c, Alone(s), r'.exportAsJson, first, false) == Decrypt(c, s, r'.exportAsJson, first, false) == Plain(text') {
        DecryptInvertsSeal(c, Alone(s), s.current, text'.value, first, false);
        DecryptInvertsSeal(c, s, s.current, text'.value, first, false);
      }
    }
  }

  // ----- what stops the migration of checkpoints

  ghost predicate StuckCell(c: Cipher, s: Secrets, row: Row, column: string) {
    HasValue(row, column) && Undecipherable(c, s, Some(row[column].text))
  }

  ghost predicate StuckRow(c: Cipher, s: Secrets, row: Row, columns: seq<string>) {
    exists k :: 0 <= k < |columns| && StuckCell(c, s, row, columns[k])
  }

  lemma {:induction false} RowStops(c: Cipher, s: Secrets, row: Row, columns: seq<string>)
    requires Lawful(c)
    ensures MigrateRow(c, s, row, columns).None? <==> StuckRow(c, s, row, columns)
  {
    if columns != [] {
      var init, last := columns[..|columns| - 1], columns[|columns| - 1];
      assert columns == init + [last];
      RowStops(c, s, row, init);
      assert StuckRow(c, s, row, columns) <==> StuckRow(c, s, row, init) || StuckCell(c, s, row, last);
      if MigrateRow(c, s, row, init).Some? {
        MigratedRow(c, s, row, init, last);
        CellStops(c, s, row, init, last);
      }
    }
  }

  /** A column that is listed again finds text that was just re-encrypted. */
  lemma CellStops(c: Cipher, s: Secrets, row: Row, init: seq<string>, last: string)
    requires Lawful(c) && MigrateRow(c, s, row, init).Some? && !StuckRow(c, s, row, init)
    ensures MigrateCell(c, s, MigrateRow(c, s, row, init).value, last).None? <==> StuckCell(c, s, row, last)
  {
    MigratedRow(c, s, row, init, last);
    if HasValue(row, last) {
      var text := row[last].text;
      LenientDecryptFails(c, s, Some(text), true);
      if last in init {
        ResealReadsSame(c, s, text, true);
        var k :| 0 <= k < |init| && init[k] == last;
        assert !StuckCell(c, s, row, init[k]);
      }
    }
  }

  ghost predicate StuckGrid(c: Cipher, s: Secrets, grid: seq<Row>, columns: seq<string>) {
    exists i :: 0 <= i < |grid| && StuckRow(c, s, grid[i], columns)
  }

  lemma RowsStop(c: Cipher, s: Secrets, grid: seq<Row>, columns: seq<string>)
    requires Lawful(c)
    ensures MigrateRows(c, s, grid, columns).None? <==> StuckGrid(c, s, grid, columns)
  {
    forall i | 0 <= i < |grid| ensures MigrateRow(c, s, grid[i], columns).None? <==> StuckRow(c, s, grid[i], columns) {
      RowStops(c, s, grid[i], columns);
    }
    var rows := MigrateRows(c, s, grid, columns);
    if rows.Some? {
      assert forall i :: 0 <= i < |grid| ==> MigrateRow(c, s, grid[i], columns) == Some(rows.value[i]);
    }
  }

  /** A secret string of the setting, or a cell of its grid under a column marked secret, is
      well-formed text that no configured secret opens. */
  ghost predicate StuckSetting(c: Cipher, s: Secrets, e: ExportSetting) {
    || (e.value.StringValue? && e.isSecret && Undecipherable(c, s, e.value.text))
    || (e.value.GridValue? && e.value.rows.Some? &&
        exists i, name :: 0 <= i < |e.value.rows.value| && IsSecretIn(e.columns, name) && StuckCell(c, s, e.value.rows.value[i], name))
  }

  lemma StuckGridIs(c: Cipher, s: Secrets, e: ExportSetting, grid: seq<Row>)
    ensures StuckGrid(c, s, grid, ColumnsOf(e)) <==>
              exists i, name :: 0 <= i < |grid| && IsSecretIn(e.columns, name) && StuckCell(c, s, grid[i], name)
  {
    if i, name :| 0 <= i < |grid| && IsSecretIn(e.columns, name) && StuckCell(c, s, grid[i], name) {
      ColumnsAre(e, name);
      var k :| 0 <= k < |ColumnsOf(e)| && ColumnsOf(e)[k] == name;
      assert StuckRow(c, s, grid[i], ColumnsOf(e));
    }
    if StuckGrid(c, s, grid, ColumnsOf(e)) {
      var i :| 0 <= i < |grid| && StuckRow(c, s, grid[i], ColumnsOf(e));
      var k :| 0 <= k < |ColumnsOf(e)| && StuckCell(c, s, grid[i], ColumnsOf(e)[k]);
      ColumnsAre(e, ColumnsOf(e)[k]);
    }
  }

  lemma SettingStops(c: Cipher, s: Secrets, e: ExportSetting)
    requires Lawful(c)
    ensures MigrateSetting(c, s, e).None? <==> StuckSetting(c, s, e)
  {
    if e.value.StringValue? && e.isSecret && e.value.text.Some? {
      LenientDecryptFails(c, s, e.value.text, true);
    }
    RowsStop(c, s, GridOf(e), ColumnsOf(e));
    StuckGridIs(c, s, e, GridOf(e));
  }

  ghost predicate StuckExport(c: Cipher, s: Secrets, settings: seq<ExportSetting>) {
    exists i :: 0 <= i < |settings| && StuckSetting(c, s, settings[i])
  }

  lemma {:induction false} SettingsStop(c: Cipher, s: Secrets, settings: seq<ExportSetting>)
    requires Lawful(c)
    ensures MigrateSettings(c, s, settings).None? <==> StuckExport(c, s, settings)
  {
    if settings != [] {
      var init, last := settings[..|settings| - 1], settings[|settings| - 1];
      assert settings == init + [last];
      SettingsStop(c, s, init);
      SettingStops(c, s, last);
      assert StuckExport(c, s, settings) <==> StuckExport(c, s, init) || StuckSetting(c, s, last);
    }
  }

  /** The checkpoint itself, or a secret in the export it holds, is undecipherable. */
  ghost predicate UndecipherableCheckpoint(c: Cipher, s: Secrets, json: Json<Export>, r: CheckpointRow) {
    || Undecipherable(c, s, r.exportAsJson)
    || (var outer := Lenient(c, s, r.exportAsJson);
        outer.Plain? && StuckText(c, s, json, outer.text))
  }

  /** Exactly these checkpoints stop the migration. */
  lemma CheckpointStops(c: Cipher, s: Secrets, json: Json<Export>, r: CheckpointRow)
    requires Lawful(c)
    ensures Prepared(CheckpointKind(c, s, json), r).None? <==> UndecipherableCheckpoint(c, s, json, r)
  {
    LenientDecryptFails(c, s, r.exportAsJson, true);
    var outer := Lenient(c, s, r.exportAsJson);
    if outer.Plain? && outer.text.Some? && json.parse(outer.text.value).Some? {
      SettingsStop(c, s, json.parse(outer.text.value).value.settings);
    }
  }

  method PerformCheckPointMigration(c: Cipher, s: Secrets, json: Json<Export>, repository: Repository<CheckpointRow>, secretChangeDate: int)
    returns (outcome: Outcome)
    requires Lawful(c) && JsonLaw(json) && repository.clock >= secretChangeDate
    modifies repository
    ensures repository.clock >= secretChangeDate
    ensures repository.rows.Keys == old(repository.rows).Keys
    ensures outcome.Completed? <==> AllOpen(CheckpointKind(c, s, json), old(repository.rows), secretChangeDate)
    ensures outcome.Completed? ==>
      && outcome.total == |Pending(CheckpointKind(c, s, json), old(repository.rows), secretChangeDate)|
      && Pending(CheckpointKind(c, s, json), repository.rows, secretChangeDate) == {}
      && forall id :: id in Pending(CheckpointKind(c, s, json), old(repository.rows), secretChangeDate) ==>
           SameCheckpoint(c, s, json, old(repository.rows)[id], repository.rows[id])
    ensures forall id :: id in repository.rows ==>
      repository.rows[id] == old(repository.rows)[id]
      || (id in Pending(CheckpointKind(c, s, json), old(repository.rows), secretChangeDate)
          && SameCheckpoint(c, s, json, old(repository.rows)[id], repository.rows[id]))
  {
    ghost var done;
    outcome, done := PerformBatches(CheckpointKind(c, s, json), repository, secretChangeDate, CHECKPOINT_BATCH);
    forall id | id in done ensures id in repository.rows && SameCheckpoint(c, s, json, old(repository.rows)[id], repository.rows[id]) {
      CheckpointPreserved(c, s, json, secretChangeDate, old(repository.rows)[id], repository.rows[id]);
    }
  }
}
