/**
 Applying a value-only import to a client
 (src/api/Fig.Api/DataImport/SettingApplier.cs:37-225 and
 src/api/Fig.Api/Services/ImportExportService.cs:436-458).

 Import entries are objects: decrypting one replaces its value and clears its mark, which every
 later setting that resolves to the same entry sees.
 */
module SettingApplier {
  import opened Text
  import opened DataGrid
  import opened Encryption
  import opened ClientExport
  import opened Linq

  /** A grid comes as a JSON array or as a list of rows; `text` is what `ToString` gives for it, the
      JSON or the name of the list type. */
  datatype ImportValue = NullImport | TextImport(text: string) | OtherImport(text: string) | GridImport(rows: seq<Row>, text: string)

  /** What a setting is registered with. */
  datatype Definition = Definition(name: string, migrateFrom: Option<string>, migrationMethod: Option<string>,
                                   columns: Option<seq<Column>>, valueType: string)

  /** How imported and stored values compare and convert; None is an exception. */
  datatype Codec<!W> = Codec(equivalent: (ImportValue, W) -> bool, create: (ImportValue, string) -> Option<W>)

  datatype Keys = Keys(cipher: Cipher, secrets: Secrets, custom: Option<string>)

  /** The part of an import entry that changes. */
  datatype Payload = Payload(value: ImportValue, isEncrypted: bool)

  /** The part of a setting that changes. */
  datatype Held<W> = Held(value: W, isExternallyManaged: bool)

  datatype Warning = AppliedToRenamed(source: string, target: string) | NeedsMigrationMethod(source: string, target: string)
                   | IgnoredStale(source: string, target: string)

  // ----- which entry a setting takes

  /** The first entry with the name, or the length of the list. */
  function First(names: seq<string>, name: string): (i: nat)
    ensures i <= |names|
    ensures i < |names| ==> names[i] == name
    ensures forall j :: 0 <= j < i ==> names[j] != name
  {
    if names == [] then 0 else if names[0] == name then 0 else 1 + First(names[1..], name)
  }

  predicate IsRegistered(settings: seq<Definition>, name: string) {
    exists i :: 0 <= i < |settings| && settings[i].name == name
  }

  /** The rename source is used: the setting has one, and no registered setting has its name. */
  predicate UsesSource(settings: seq<Definition>, setting: Definition) {
    !IsNullOrBlank(setting.migrateFrom) && !IsRegistered(settings, setting.migrateFrom.value)
  }

  /** The entry that a setting resolves to: the first with its own name, otherwise the first with
      the name of its rename source, if that is used and no migration method is required. */
  function Resolve(settings: seq<Definition>, names: seq<string>, setting: Definition): (r: Option<nat>)
    ensures r.Some? ==> r.value < |names|
  {
    if First(names, setting.name) < |names| then Some(First(names, setting.name))
    else if UsesSource(settings, setting) && First(names, setting.migrateFrom.value) < |names| && IsNullOrBlank(setting.migrationMethod) then
      Some(First(names, setting.migrateFrom.value))
    else None
  }

  /** The names that the setting settles: handled, though not necessarily applied. */
  function Handles(settings: seq<Definition>, names: seq<string>, setting: Definition): set<string> {
    if setting.name in names then
      {setting.name} + if !IsNullOrBlank(setting.migrateFrom) && setting.migrateFrom.value in names then {setting.migrateFrom.value} else {}
    else if UsesSource(settings, setting) && setting.migrateFrom.value in names then {setting.migrateFrom.value}
    else {}
  }

  /** The warning that the setting gives, after the names handled before it. */
  function WarningOf(settings: seq<Definition>, names: seq<string>, setting: Definition, handled: set<string>): Option<Warning> {
    if setting.name in names then
      if !IsNullOrBlank(setting.migrateFrom) && setting.migrateFrom.value in names && setting.migrateFrom.value !in handled + {setting.name} then
        Some(IgnoredStale(setting.migrateFrom.value, setting.name))
      else None
    else if UsesSource(settings, setting) && setting.migrateFrom.value in names then
      Some(if IsNullOrBlank(setting.migrationMethod) then AppliedToRenamed(setting.migrateFrom.value, setting.name)
           else NeedsMigrationMethod(setting.migrateFrom.value, setting.name))
    else None
  }

  lemma FirstIn(names: seq<string>, name: string)
    ensures First(names, name) < |names| <==> name in names
  {
  }

  /** The entry in the settings' own terms: the first with the name of the setting; or, if there is
      none, the first with the name of its rename source, unless some setting still has that name
      or a migration method is required. */
  lemma ResolveIs(settings: seq<Definition>, names: seq<string>, setting: Definition, i: nat)
    requires i < |names|
    ensures Resolve(settings, names, setting) == Some(i) <==>
              && (forall j :: 0 <= j < i ==> names[j] != names[i])
              && (|| names[i] == setting.name
                  || (&& setting.name !in names && setting.migrateFrom == Some(names[i]) && !IsBlank(names[i])
                      && (forall j :: 0 <= j < |settings| ==> settings[j].name != names[i])
                      && IsNullOrBlank(setting.migrationMethod)))
  {
    FirstIn(names, setting.name);
    if setting.migrateFrom.Some? {
      FirstIn(names, setting.migrateFrom.value);
    }
  }

  /** The warnings in the settings' own terms. */
  lemma WarningIs(settings: seq<Definition>, names: seq<string>, setting: Definition, handled: set<string>, source: string, target: string)
    ensures WarningOf(settings, names, setting, handled) == Some(IgnoredStale(source, target)) <==>
              && target == setting.name && setting.migrateFrom == Some(source) && !IsBlank(source)
              && target in names && source in names && source != target && source !in handled
    ensures WarningOf(settings, names, setting, handled) == Some(AppliedToRenamed(source, target)) <==>
              && target == setting.name && setting.migrateFrom == Some(source) && !IsBlank(source)
              && target !in names && source in names && (forall j :: 0 <= j < |settings| ==> settings[j].name != source)
              && IsNullOrBlank(setting.migrationMethod)
    ensures WarningOf(settings, names, setting, handled) == Some(NeedsMigrationMethod(source, target)) <==>
              && target == setting.name && setting.migrateFrom == Some(source) && !IsBlank(source)
              && target !in names && source in names && (forall j :: 0 <= j < |settings| ==> settings[j].name != source)
              && !IsNullOrBlank(setting.migrationMethod)
  {
  }

  /** An entry with the name of a registered setting is taken under that name only; so two
      settings with different names take the same entry only if both are renamed from its name
      and no setting has it any more. */
  lemma RegisteredEntriesAreOwn(settings: seq<Definition>, names: seq<string>, a: Definition, b: Definition)
    requires Resolve(settings, names, a).Some? && Resolve(settings, names, a) == Resolve(settings, names, b)
    requires a in settings && b in settings && a.name != b.name
    ensures var source := names[Resolve(settings, names, a).value];
            !IsRegistered(settings, source) && a.migrateFrom == Some(source) && b.migrateFrom == Some(source)
  {
    var i :| 0 <= i < |settings| && settings[i] == a;
    var j :| 0 <= j < |settings| && settings[j] == b;
    assert IsRegistered(settings, settings[i].name) && IsRegistered(settings, settings[j].name);
  }

  // ----- decrypting an entry

  /** `Convert.ToString`. */
  function ImportText(value: ImportValue): string {
    match value
    case NullImport => ""
    case TextImport(text) => text
    case OtherImport(text) => text
    case GridImport(_, text) => text
  }

  /** `DecryptValue`; None is an exception, which ends the import. */
  function Opened(k: Keys, columns: Option<seq<Column>>, payload: Payload): Option<Payload> {
    if !payload.isEncrypted then Some(payload)
    else if Secret(columns) != [] then
      if payload.value.GridImport? then
        match DecryptGrid(k.cipher, k.secrets, k.custom, payload.value.rows, Secret(columns))
        case None => None
        case Some(rows) => Some(Payload(GridImport(rows, GRID_TEXT), false))
      else Some(payload)
    else match DecryptForImport(k.cipher, k.secrets, k.custom, Some(ImportText(payload.value)))
      case Failed(_) => None
      case Plain(text) => Some(Payload(if text.None? then NullImport else TextImport(text.value), false))
  }

  /** What decrypting an entry leaves; None if it fails. One that is not marked as encrypted stays; of
      a grid with columns marked as secret those cells are decrypted; any other value under such
      columns stays, marked; and without such columns the text of the value is decrypted. */
  ghost predicate IsOpening(k: Keys, columns: Option<seq<Column>>, before: Payload, left: Option<Payload>) {
    if !before.isEncrypted || (HasSecretColumn(columns) && !before.value.GridImport?) then left == Some(before)
    else if HasSecretColumn(columns) then
      && IsOpenedGrid(k.cipher, k.secrets, k.custom, columns.value, before.value.rows,
                      if left.Some? && left.value.value.GridImport? then Some(left.value.value.rows) else None)
      && (left.Some? ==> left.value.value.GridImport? && !left.value.isEncrypted)
    else match DecryptForImport(k.cipher, k.secrets, k.custom, Some(ImportText(before.value)))
      case Failed(_) => left == None
      case Plain(text) => text.Some? && left == Some(Payload(TextImport(text.value), false))
  }

  lemma OpenedIs(k: Keys, columns: Option<seq<Column>>, payload: Payload)
    ensures IsOpening(k, columns, payload, Opened(k, columns, payload))
  {
    if columns.Some? {
      NoSecretColumns(columns.value);
      if payload.value.GridImport? {
        DecryptGridIs(k.cipher, k.secrets, k.custom, columns.value, payload.value.rows);
      }
    }
  }

  /** The value that a setting has after it took an entry. A value that is null, or says the same
      as the old one, or cannot be converted, changes nothing. */
  function Taken<W>(codec: Codec<W>, valueType: string, value: ImportValue, old': W): W {
    if value.NullImport? || codec.equivalent(value, old') then old'
    else match codec.create(value, valueType) case None => old' case Some(w) => w
  }

  predicate Changes<W>(codec: Codec<W>, valueType: string, value: ImportValue, old': W) {
    !value.NullImport? && !codec.equivalent(value, old') && codec.create(value, valueType).Some?
  }

  // ----- the whole import, setting by setting

  /** How an entry is decrypted for a setting with the columns. */
  type Open = (Option<seq<Column>>, Payload) -> Option<Payload>

  function Opener(k: Keys): Open {
    (columns: Option<seq<Column>>, payload: Payload) => Opened(k, columns, payload)
  }

  /** Only what is marked as encrypted is decrypted, and what was decrypted is unmarked. */
  ghost predicate ClearsMark(open: Open) {
    && (forall columns: Option<seq<Column>>, payload: Payload {:trigger open(columns, payload)} ::
          !payload.isEncrypted ==> open(columns, payload) == Some(payload))
    && (forall columns: Option<seq<Column>>, payload: Payload {:trigger open(columns, payload)} ::
          open(columns, payload).Some? && open(columns, payload).value != payload ==> !open(columns, payload).value.isEncrypted)
  }

  lemma OpenerClearsMark(k: Keys)
    ensures ClearsMark(Opener(k))
  {
  }

  /** The settings in order, with the entry that each takes, and which entries are marked as
      externally managed. */
  datatype Import<!W> = Import(settings: seq<Definition>, targets: seq<Option<nat>>, external: seq<bool>, codec: Codec<W>, open: Open)

  datatype State<W> = State(payloads: seq<Payload>, helds: seq<Held<W>>, changed: seq<string>)

  /** What the settings resolve to. */
  function Targets(settings: seq<Definition>, names: seq<string>): (targets: seq<Option<nat>>)
    ensures |targets| == |settings|
    ensures forall k :: 0 <= k < |settings| ==> targets[k] == Resolve(settings, names, settings[k])
  {
    seq(|settings|, k requires 0 <= k < |settings| => Resolve(settings, names, settings[k]))
  }

  ghost predicate Fits<W>(input: Import<W>, s: State<W>) {
    && |s.payloads| == |input.external| && |s.helds| == |input.settings| == |input.targets|
    && forall k :: 0 <= k < |input.targets| ==> input.targets[k].Some? ==> input.targets[k].value < |input.external|
  }

  function Step<W>(input: Import<W>, k: nat, s: State<W>): (r: Option<State<W>>)
    requires Fits(input, s) && k < |input.settings|
    ensures r.Some? ==> Fits(input, r.value)
  {
    var at := input.targets[k];
    if at.None? then Some(s)
    else match input.open(input.settings[k].columns, s.payloads[at.value])
      case None => None
      case Some(payload) =>
        var old', valueType := s.helds[k].value, input.settings[k].valueType;
        Some(State(s.payloads[at.value := payload],
                   s.helds[k := Held(Taken(input.codec, valueType, payload.value, old'), input.external[at.value])],
                   s.changed + if Changes(input.codec, valueType, payload.value, old') then [input.settings[k].name] else []))
  }

  /** The state after the first k settings; None after an exception. */
  function Run<W>(input: Import<W>, k: nat, s: State<W>): (r: Option<State<W>>)
    requires Fits(input, s) && k <= |input.settings|
    ensures r.Some? ==> Fits(input, r.value)
  {
    if k == 0 then Some(s)
    else match Run(input, k - 1, s)
      case None => None
      case Some(s') => Step(input, k - 1, s')
  }

  lemma {:induction false} RunFails<W>(input: Import<W>, k: nat, s: State<W>)
    requires Fits(input, s) && k <= |input.settings| && Run(input, k, s).None?
    ensures Run(input, |input.settings|, s).None?
    decreases |input.settings| - k
  {
    if k < |input.settings| {
      RunFails(input, k + 1, s);
    }
  }

  lemma {:induction false} RunSucceeds<W>(input: Import<W>, k: nat, n: nat, s: State<W>)
    requires Fits(input, s) && k <= n <= |input.settings| && Run(input, n, s).Some?
    ensures Run(input, k, s).Some?
    decreases n
  {
    if k < n {
      RunSucceeds(input, k, n - 1, s);
    }
  }

  // ----- no entry is decrypted twice

  /** The entry is as it was imported, or it was decrypted once, from what was imported, for one
      of the first k settings that resolve to it. */
  ghost predicate OpenedAtMostOnce<W>(input: Import<W>, k: nat, i: nat, before: Payload, after: Payload)
    requires k <= |input.settings| == |input.targets|
  {
    after == before || exists j :: 0 <= j < k && OpenedFor(input, j, i, before, after)
  }

  ghost predicate OpenedFor<W>(input: Import<W>, j: nat, i: nat, before: Payload, after: Payload)
    requires j < |input.settings| == |input.targets|
  {
    && input.targets[j] == Some(i)
    && before.isEncrypted && !after.isEncrypted
    && input.open(input.settings[j].columns, before) == Some(after)
  }

  lemma StepPayload<W>(input: Import<W>, k: nat, s: State<W>, i: nat)
    requires Fits(input, s) && k < |input.settings| && Step(input, k, s).Some? && i < |s.payloads|
    ensures var after := Step(input, k, s).value.payloads[i];
            if input.targets[k] == Some(i) then input.open(input.settings[k].columns, s.payloads[i]) == Some(after)
            else after == s.payloads[i]
  {
  }

  lemma OpenedOnceMore<W>(input: Import<W>, k: nat, i: nat, before: Payload, mid: Payload, after: Payload)
    requires ClearsMark(input.open) && k < |input.settings| == |input.targets| && OpenedAtMostOnce(input, k, i, before, mid)
    requires if input.targets[k] == Some(i) then input.open(input.settings[k].columns, mid) == Some(after) else after == mid
    ensures OpenedAtMostOnce(input, k + 1, i, before, after)
  {
    if mid == before {
      assert after != before ==> OpenedFor(input, k, i, before, after);
    } else {
      var j :| 0 <= j < k && OpenedFor(input, j, i, before, mid);
      assert after == mid;
    }
  }

  /** At any point of an import an entry is as it was imported, or was decrypted once from that,
      however many settings resolve to it. */
  lemma {:induction false} NeverOpenedTwice<W>(input: Import<W>, k: nat, s: State<W>, i: nat)
    requires ClearsMark(input.open) && Fits(input, s) && k <= |input.settings| && i < |s.payloads| && Run(input, k, s).Some?
    ensures OpenedAtMostOnce(input, k, i, s.payloads[i], Run(input, k, s).value.payloads[i])
  {
    if k > 0 {
      var mid := Run(input, k - 1, s).value;
      NeverOpenedTwice(input, k - 1, s, i);
      StepPayload(input, k - 1, mid, i);
      OpenedOnceMore(input, k - 1, i, s.payloads[i], mid.payloads[i], Run(input, k, s).value.payloads[i]);
    }
  }

  // ----- what each setting ends up with

  /** What setting k takes from an entry. */
  function HeldAfter<W>(input: Import<W>, k: nat, i: nat, value: ImportValue, held: Held<W>): Held<W>
    requires k < |input.settings| && i < |input.external|
  {
    Held(Taken(input.codec, input.settings[k].valueType, value, held.value), input.external[i])
  }

  lemma StepHeld<W>(input: Import<W>, k: nat, s: State<W>, j: nat)
    requires Fits(input, s) && k < |input.settings| && Step(input, k, s).Some? && j < |s.helds|
    ensures var s' := Step(input, k, s).value;
            var at := input.targets[k];
            s'.helds[j] == if j != k || at.None? then s.helds[j] else HeldAfter(input, k, at.value, s'.payloads[at.value].value, s.helds[k])
  {
  }

  /** Setting j keeps its value until step j, and what it has after that. */
  lemma {:induction false} HeldBefore<W>(input: Import<W>, k: nat, s: State<W>, j: nat)
    requires Fits(input, s) && k <= j < |s.helds| && Run(input, k, s).Some?
    ensures Run(input, k, s).value.helds[j] == s.helds[j]
  {
    if k > 0 {
      HeldBefore(input, k - 1, s, j);
      StepHeld(input, k - 1, Run(input, k - 1, s).value, j);
    }
  }

  lemma {:induction false} HeldSince<W>(input: Import<W>, k: nat, s: State<W>, j: nat, held: Held<W>)
    requires Fits(input, s) && j < k <= |input.settings| && Run(input, k, s).Some?
    requires Run(input, j + 1, s).Some? && Run(input, j + 1, s).value.helds[j] == held
    ensures Run(input, k, s).value.helds[j] == held
    decreases k
  {
    if k > j + 1 {
      HeldSince(input, k - 1, s, j, held);
      StepHeld(input, k - 1, Run(input, k - 1, s).value, j);
    }
  }

  /** What setting j ends up with, and whether that counts as a change: what the one entry that it
      resolves to makes of it, or its old value. */
  ghost predicate Settled<W>(input: Import<W>, s: State<W>, j: nat, held: Held<W>, changes: bool)
    requires Fits(input, s) && j < |input.settings|
  {
    match input.targets[j]
    case None => held == s.helds[j] && !changes
    case Some(i) => exists payload :: SettledBy(input, s, j, i, payload, held, changes)
  }

  /** The entry was decrypted at most once. A value in it that is not null, differs from the old one
      and can be converted is what the setting has now, and a change; otherwise the old one is. */
  ghost predicate SettledBy<W>(input: Import<W>, s: State<W>, j: nat, i: nat, payload: Payload, held: Held<W>, changes: bool)
    requires Fits(input, s) && j < |input.settings| && i < |s.payloads|
  {
    var created := input.codec.create(payload.value, input.settings[j].valueType);
    && OpenedAtMostOnce(input, j + 1, i, s.payloads[i], payload)
    && input.open(input.settings[j].columns, payload) == Some(payload)
    && held.isExternallyManaged == input.external[i]
    && (changes <==> !payload.value.NullImport? && !input.codec.equivalent(payload.value, s.helds[j].value) && created.Some?)
    && held.value == if changes then created.value else s.helds[j].value
  }

  lemma SettlesAt<W>(input: Import<W>, s: State<W>, j: nat)
    requires ClearsMark(input.open) && Fits(input, s) && j < |input.settings| && Run(input, j + 1, s).Some?
    ensures Settled(input, s, j, Run(input, j + 1, s).value.helds[j], ChangesAt(input, s, j))
  {
    var mid, after := Run(input, j, s).value, Run(input, j + 1, s).value;
    HeldBefore(input, j, s, j);
    StepHeld(input, j, mid, j);
    if input.targets[j].Some? {
      var i := input.targets[j].value;
      NeverOpenedTwice(input, j + 1, s, i);
      StepPayload(input, j, mid, i);
      assert SettledBy(input, s, j, i, after.payloads[i], after.helds[j], ChangesAt(input, s, j));
    }
  }

  /** Step j adds the name of setting j to the changed ones. */
  ghost predicate ChangesAt<W>(input: Import<W>, s: State<W>, j: nat)
    requires Fits(input, s) && j < |input.settings|
  {
    Run(input, j + 1, s).Some? && Run(input, j, s).Some? && |Run(input, j + 1, s).value.changed| > |Run(input, j, s).value.changed|
  }

  /** The names among the changed ones are those of the settings that changed. */
  lemma {:induction false} ChangedNames<W>(input: Import<W>, k: nat, s: State<W>, name: string)
    requires Fits(input, s) && k <= |input.settings| && Run(input, k, s).Some?
    ensures name in Run(input, k, s).value.changed <==>
              || name in s.changed
              || exists j :: 0 <= j < k && ChangesAt(input, s, j) && input.settings[j].name == name
  {
    if k > 0 {
      ChangedNames(input, k - 1, s, name);
      var mid := Run(input, k - 1, s).value;
      assert Run(input, k, s).value.changed == mid.changed + if ChangesAt(input, s, k - 1) then [input.settings[k - 1].name] else [];
    }
  }

  lemma EachSettingSettles<W>(input: Import<W>, s: State<W>, j: nat)
    requires ClearsMark(input.open) && Fits(input, s) && j < |input.settings| && Run(input, |input.settings|, s).Some?
    ensures Settled(input, s, j, Run(input, |input.settings|, s).value.helds[j], ChangesAt(input, s, j))
  {
    RunSucceeds(input, j + 1, |input.settings|, s);
    SettlesAt(input, s, j);
    HeldSince(input, |input.settings|, s, j, Run(input, j + 1, s).value.helds[j]);
  }

  // ----- handled or missing

  datatype Notes = Notes(handled: set<string>, warnings: seq<Warning>)

  function Note(settings: seq<Definition>, names: seq<string>, setting: Definition, notes: Notes): Notes {
    Notes(notes.handled + Handles(settings, names, setting),
          notes.warnings + ToList(WarningOf(settings, names, setting, notes.handled)))
  }

  /** What the first k settings leave in the result of the import. */
  function Noted(settings: seq<Definition>, names: seq<string>, k: nat): Notes
    requires k <= |settings|
  {
    if k == 0 then Notes({}, []) else Note(settings, names, settings[k - 1], Noted(settings, names, k - 1))
  }

  ghost predicate HandledByFirst(settings: seq<Definition>, names: seq<string>, k: nat, name: string)
    requires k <= |settings|
  {
    exists j :: 0 <= j < k && name in Handles(settings, names, settings[j])
  }

  lemma {:induction false} NotedHandles(settings: seq<Definition>, names: seq<string>, k: nat, name: string)
    requires k <= |settings|
    ensures name in Noted(settings, names, k).handled <==> HandledByFirst(settings, names, k, name)
  {
    if k > 0 {
      NotedHandles(settings, names, k - 1, name);
      assert HandledByFirst(settings, names, k, name) <==>
             HandledByFirst(settings, names, k - 1, name) || name in Handles(settings, names, settings[k - 1]);
    }
  }

  /** Setting j gives the warning, after the names that the settings before it handled. */
  ghost predicate Warns(settings: seq<Definition>, names: seq<string>, j: nat, warning: Warning)
    requires j < |settings|
  {
    WarningOf(settings, names, settings[j], Noted(settings, names, j).handled) == Some(warning)
  }

  /** The warnings are those that some setting gives. */
  lemma {:induction false} NotedWarns(settings: seq<Definition>, names: seq<string>, k: nat, warning: Warning)
    requires k <= |settings|
    ensures warning in Noted(settings, names, k).warnings <==> exists j :: 0 <= j < k && Warns(settings, names, j, warning)
  {
    if k > 0 {
      NotedWarns(settings, names, k - 1, warning);
      assert warning in Noted(settings, names, k).warnings <==>
             warning in Noted(settings, names, k - 1).warnings || Warns(settings, names, k - 1, warning);
    }
  }

  /** The imported names that `UpdateClient` reports as missing. */
  function Missing(settings: seq<Definition>, names: seq<string>, handled: set<string>): seq<string> {
    Filter(names, (name: string) => name !in handled && !IsRegistered(settings, name))
  }

  /** The setting has the name, or has it as its rename source and either an entry of its own or
      a source that is no longer registered. */
  ghost predicate IsHandledBy(settings: seq<Definition>, names: seq<string>, setting: Definition, name: string) {
    || setting.name == name
    || (!IsNullOrBlank(setting.migrateFrom) && setting.migrateFrom.value == name
        && (setting.name in names || !IsRegistered(settings, name)))
  }

  ghost predicate IsHandled(settings: seq<Definition>, names: seq<string>, name: string) {
    exists j :: 0 <= j < |settings| && IsHandledBy(settings, names, settings[j], name)
  }

  lemma HandlesName(settings: seq<Definition>, names: seq<string>, setting: Definition, name: string)
    requires name in names
    ensures name in Handles(settings, names, setting) <==> IsHandledBy(settings, names, setting, name)
  {
  }

  /** Every imported name is either handled or reported as missing, and never both. */
  lemma HandledOrMissing(settings: seq<Definition>, names: seq<string>, name: string)
    requires name in names
    ensures var handled := Noted(settings, names, |settings|).handled;
            && (name in handled <==> IsHandled(settings, names, name))
            && (name in Missing(settings, names, handled) <==> !IsHandled(settings, names, name))
  {
    var handled := Noted(settings, names, |settings|).handled;
    NotedHandles(settings, names, |settings|, name);
    forall j | 0 <= j < |settings|
      ensures name in Handles(settings, names, settings[j]) <==> IsHandledBy(settings, names, settings[j], name)
    {
      HandlesName(settings, names, settings[j], name);
    }
    FilterHas(names, (n: string) => n !in handled && !IsRegistered(settings, n), name);
    if i :| 0 <= i < |settings| && settings[i].name == name {
      assert IsHandledBy(settings, names, settings[i], name);
    }
  }

  ghost predicate AreMissing(settings: seq<Definition>, names: seq<string>, missing: seq<string>) {
    forall name :: name in names ==> (name in missing <==> !IsHandled(settings, names, name))
  }

  ghost predicate AreWarnings(settings: seq<Definition>, names: seq<string>, warnings: seq<Warning>) {
    forall warning :: warning in warnings <==> exists j :: 0 <= j < |settings| && Warns(settings, names, j, warning)
  }

  lemma NotesMean(settings: seq<Definition>, names: seq<string>)
    ensures var notes := Noted(settings, names, |settings|);
            AreMissing(settings, names, Missing(settings, names, notes.handled)) && AreWarnings(settings, names, notes.warnings)
  {
    forall name | name in names
      ensures name in Missing(settings, names, Noted(settings, names, |settings|).handled) <==> !IsHandled(settings, names, name)
    {
      HandledOrMissing(settings, names, name);
    }
    forall warning
      ensures warning in Noted(settings, names, |settings|).warnings <==> exists j :: 0 <= j < |settings| && Warns(settings, names, j, warning)
    {
      NotedWarns(settings, names, |settings|, warning);
    }
  }

  // ----- the objects

  class ImportEntry {
    const name: string
    const isExternallyManaged: bool
    var payload: Payload

    constructor (name: string, isExternallyManaged: bool, payload: Payload)
      ensures this.name == name && this.isExternallyManaged == isExternallyManaged && this.payload == payload
    {
      this.name, this.isExternallyManaged, this.payload := name, isExternallyManaged, payload;
    }
  }

  class SettingEntity<W> {
    const definition: Definition
    var held: Held<W>

    constructor (definition: Definition, held: Held<W>)
      ensures this.definition == definition && this.held == held
    {
      this.definition, this.held := definition, held;
    }
  }

  ghost predicate DistinctObjects<T>(objects: seq<T>) {
    forall i, j :: 0 <= i < j < |objects| ==> objects[i] != objects[j]
  }

  function Definitions<W>(settings: seq<SettingEntity<W>>): seq<Definition> {
    seq(|settings|, i requires 0 <= i < |settings| => settings[i].definition)
  }

  function Names(entries: seq<ImportEntry>): (names: seq<string>)
    ensures |names| == |entries|
  {
    seq(|entries|, i requires 0 <= i < |entries| => entries[i].name)
  }

  function External(entries: seq<ImportEntry>): seq<bool> {
    seq(|entries|, i requires 0 <= i < |entries| => entries[i].isExternallyManaged)
  }

  function Payloads(entries: seq<ImportEntry>): (r: seq<Payload>)
    reads entries
    ensures |r| == |entries| && forall i :: 0 <= i < |entries| ==> r[i] == entries[i].payload
  {
    seq(|entries|, i requires 0 <= i < |entries| reads entries => entries[i].payload)
  }

  function Helds<W>(settings: seq<SettingEntity<W>>): (r: seq<Held<W>>)
    reads settings
    ensures |r| == |settings| && forall i :: 0 <= i < |settings| ==> r[i] == settings[i].held
  {
    seq(|settings|, i requires 0 <= i < |settings| reads settings => settings[i].held)
  }

  /** What an import of the entries into the client starts from. */
  function InputOf<W>(settings: seq<SettingEntity<W>>, entries: seq<ImportEntry>, codec: Codec<W>, keys: Keys): Import<W> {
    Import(Definitions(settings), Targets(Definitions(settings), Names(entries)), External(entries), codec, Opener(keys))
  }

  function StateOf<W>(settings: seq<SettingEntity<W>>, entries: seq<ImportEntry>, changed: seq<string>): State<W>
    reads settings, entries
  {
    State(Payloads(entries), Helds(settings), changed)
  }

  ghost predicate IsInput<W>(settings: seq<SettingEntity<W>>, entries: seq<ImportEntry>, codec: Codec<W>, keys: Keys,
                             definitions: seq<Definition>, names: seq<string>, input: Import<W>) {
    && definitions == Definitions(settings) && names == Names(entries)
    && input.settings == definitions && input.external == External(entries)
    && |input.targets| == |definitions| && ResolvedTo(definitions, names, input.targets, |definitions|)
    && input.codec == codec && input.open == Opener(keys)
  }

  /** The first n settings resolve to the targets. */
  ghost predicate ResolvedTo(definitions: seq<Definition>, names: seq<string>, targets: seq<Option<nat>>, n: nat)
    requires n <= |targets| == |definitions|
  {
    n == 0 || (targets[n - 1] == Resolve(definitions, names, definitions[n - 1]) && ResolvedTo(definitions, names, targets, n - 1))
  }

  lemma {:induction false} ResolvedAt(definitions: seq<Definition>, names: seq<string>, targets: seq<Option<nat>>, n: nat, k: nat)
    requires k < n <= |targets| == |definitions| && ResolvedTo(definitions, names, targets, n)
    ensures targets[k] == Resolve(definitions, names, definitions[k])
  {
    if k < n - 1 {
      ResolvedAt(definitions, names, targets, n - 1, k);
    }
  }

  lemma {:induction false} TargetsResolve(definitions: seq<Definition>, names: seq<string>, targets: seq<Option<nat>>, n: nat)
    requires n <= |targets| == |definitions| && targets == Targets(definitions, names)
    ensures ResolvedTo(definitions, names, targets, n)
  {
    if n > 0 {
      TargetsResolve(definitions, names, targets, n - 1);
    }
  }

  lemma InputFits<W>(settings: seq<SettingEntity<W>>, entries: seq<ImportEntry>, codec: Codec<W>, keys: Keys, changed: seq<string>)
    ensures Fits(InputOf(settings, entries, codec, keys), StateOf(settings, entries, changed))
  {
  }

  /** `GetImportMatch` and `HandleStaleMigrateFromSource`. */
  method GetImportMatch(settings: seq<Definition>, names: seq<string>, setting: Definition, notes: Notes)
    returns (found: Option<nat>, notes': Notes)
    ensures found == Resolve(settings, names, setting)
    ensures notes' == Note(settings, names, setting, notes)
  {
    notes' := notes;
    FirstIn(names, setting.name);
    var exact := First(names, setting.name);
    if exact < |names| {
      notes' := notes'.(handled := notes'.handled + {setting.name});
      if !IsNullOrBlank(setting.migrateFrom) {
        FirstIn(names, setting.migrateFrom.value);
        if First(names, setting.migrateFrom.value) < |names| && setting.migrateFrom.value !in notes'.handled {
          notes' := Notes(notes'.handled + {setting.migrateFrom.value},
                          notes'.warnings + [IgnoredStale(setting.migrateFrom.value, setting.name)]);
        }
      }
      return Some(exact), notes';
    }
    if IsNullOrBlank(setting.migrateFrom) || IsRegistered(settings, setting.migrateFrom.value) {
      return None, notes';
    }
    var source := setting.migrateFrom.value;
    FirstIn(names, source);
    var at := First(names, source);
    if at == |names| {
      return None, notes';
    }
    if !IsNullOrBlank(setting.migrationMethod) {
      notes' := Notes(notes'.handled + {source}, notes'.warnings + [NeedsMigrationMethod(source, setting.name)]);
      return None, notes';
    }
    notes' := Notes(notes'.handled + {source}, notes'.warnings + [AppliedToRenamed(source, setting.name)]);
    found := Some(at);
  }

  /** `DecryptValue` and `DecryptDataGridValue`: the rows are read into dictionaries of their own. */
  method DecryptValue(keys: Keys, entry: ImportEntry, columns: Option<seq<Column>>) returns (ok: bool)
    modifies entry
    ensures ok <==> Opened(keys, columns, old(entry.payload)).Some?
    ensures ok ==> Opened(keys, columns, old(entry.payload)) == Some(entry.payload)
    ensures IsOpening(keys, columns, old(entry.payload), if ok then Some(entry.payload) else None)
  {
    OpenedIs(keys, columns, entry.payload);
    if !entry.payload.isEncrypted {
      return true;
    }
    if columns.Some? && SecretColumns(columns.value) != [] {
      if !entry.payload.value.GridImport? {
        return true;
      }
      var rows := ToRows(entry.payload.value.rows);
      ok := DecryptColumns(keys.cipher, keys.secrets, keys.custom, rows, SecretColumns(columns.value));
      if ok {
        entry.payload := Payload(GridImport(CellsOf(rows), GRID_TEXT), false);
      }
      return;
    }
    var decrypted := DecryptForImport(keys.cipher, keys.secrets, keys.custom, Some(ImportText(entry.payload.value)));
    if decrypted.Failed? {
      return false;
    }
    entry.payload := Payload(if decrypted.text.None? then NullImport else TextImport(decrypted.text.value), false);
    ok := true;
  }

  method ToRows(grid: seq<Row>) returns (rows: seq<GridRow>)
    ensures fresh(rows) && DistinctRows(rows) && CellsOf(rows) == grid
  {
    rows := [];
    for i := 0 to |grid|
      invariant fresh(rows) && DistinctRows(rows) && |rows| == i
      invariant forall k :: 0 <= k < i ==> rows[k].cells == grid[k]
    {
      var row := new GridRow(grid[i]);
      rows := rows + [row];
    }
  }

  /** The value of a setting after it took an entry, and whether it changed. */
  method Take<W>(codec: Codec<W>, setting: SettingEntity<W>, entry: ImportEntry) returns (changed: bool)
    modifies setting
    ensures setting.held == Held(Taken(codec, setting.definition.valueType, entry.payload.value, old(setting.held.value)), entry.isExternallyManaged)
    ensures changed == Changes(codec, setting.definition.valueType, entry.payload.value, old(setting.held.value))
    ensures changed ==> Some(setting.held.value) == codec.create(entry.payload.value, setting.definition.valueType)
    ensures !changed ==> setting.held.value == old(setting.held.value)
    ensures entry.payload == old(entry.payload)
  {
    setting.held := setting.held.(isExternallyManaged := entry.isExternallyManaged);
    changed := false;
    if !entry.payload.value.NullImport? && !codec.equivalent(entry.payload.value, setting.held.value) {
      var newValue := codec.create(entry.payload.value, setting.definition.valueType);
      if newValue.Some? {
        changed := true;
        setting.held := setting.held.(value := newValue.value);
      }
    }
  }

  /** The body of the loop over the settings of the client, for a setting that takes an entry. */
  method ApplyEntry<W>(settings: seq<SettingEntity<W>>, entries: seq<ImportEntry>, codec: Codec<W>, keys: Keys, k: nat, at: nat, changed: seq<string>,
                       definitions: seq<Definition>, names: seq<string>, ghost input: Import<W>)
    returns (ok: bool, changed': seq<string>)
    requires DistinctObjects(settings) && DistinctObjects(entries) && k < |settings| && at < |entries|
    requires IsInput(settings, entries, codec, keys, definitions, names, input)
    requires Fits(input, StateOf(settings, entries, changed)) && input.targets[k] == Some(at)
    modifies settings[k], entries[at]
    ensures ok <==> Step(input, k, old(StateOf(settings, entries, changed))).Some?
    ensures ok ==> Step(input, k, old(StateOf(settings, entries, changed))) == Some(StateOf(settings, entries, changed'))
  {
    ghost var before := StateOf(settings, entries, changed);
    changed' := changed;
    ok := DecryptValue(keys, entries[at], settings[k].definition.columns);
    if !ok {
      return;
    }
    ghost var payload := entries[at].payload;
    var isChanged := Take(codec, settings[k], entries[at]);
    if isChanged {
      changed' := changed' + [settings[k].definition.name];
    }
    assert Payloads(entries) == before.payloads[at := payload];
    assert Helds(settings) == before.helds[k := settings[k].held];
    StepTaken(input, k, before, at, payload, settings[k].held, changed');
  }

  lemma StepTaken<W>(input: Import<W>, k: nat, s: State<W>, at: nat, payload: Payload, held: Held<W>, changed: seq<string>)
    requires Fits(input, s) && k < |input.settings| && input.targets[k] == Some(at)
    requires input.open(input.settings[k].columns, s.payloads[at]) == Some(payload)
    requires held == HeldAfter(input, k, at, payload.value, s.helds[k])
    requires changed == s.changed + if Changes(input.codec, input.settings[k].valueType, payload.value, s.helds[k].value) then [input.settings[k].name] else []
    ensures Step(input, k, s) == Some(State(s.payloads[at := payload], s.helds[k := held], changed))
  {
  }

  /** The notes after each setting, up to the n-th. */
  ghost predicate IsTrail(settings: seq<Definition>, names: seq<string>, trail: seq<Notes>, n: nat)
    requires n <= |settings| && n < |trail|
  {
    if n == 0 then trail[0] == Notes({}, [])
    else trail[n] == Note(settings, names, settings[n - 1], trail[n - 1]) && IsTrail(settings, names, trail, n - 1)
  }

  lemma {:induction false} TrailAt(settings: seq<Definition>, names: seq<string>, trail: seq<Notes>, n: nat, k: nat)
    requires k < n <= |settings| && n < |trail| && IsTrail(settings, names, trail, n)
    ensures trail[k + 1] == Note(settings, names, settings[k], trail[k])
  {
    if k < n - 1 {
      TrailAt(settings, names, trail, n - 1, k);
    }
  }

  lemma {:induction false} TrailExists(settings: seq<Definition>, names: seq<string>, n: nat) returns (trail: seq<Notes>)
    requires n <= |settings|
    ensures |trail| == n + 1 && trail[0] == Notes({}, []) && trail[n] == Noted(settings, names, n)
    ensures IsTrail(settings, names, trail, n)
  {
    if n == 0 {
      trail := [Notes({}, [])];
    } else {
      var init := TrailExists(settings, names, n - 1);
      trail := init + [Note(settings, names, settings[n - 1], init[n - 1])];
      TrailGrows(settings, names, init, trail, n - 1);
    }
  }

  lemma {:induction false} TrailGrows(settings: seq<Definition>, names: seq<string>, trail: seq<Notes>, longer: seq<Notes>, n: nat)
    requires n <= |settings| && n < |trail| && trail <= longer && IsTrail(settings, names, trail, n)
    ensures IsTrail(settings, names, longer, n)
  {
    if n > 0 {
      TrailGrows(settings, names, trail, longer, n - 1);
    }
  }

  /** The body of the loop over the settings of the client. */
  method ApplySetting<W>(settings: seq<SettingEntity<W>>, entries: seq<ImportEntry>, codec: Codec<W>, keys: Keys, k: nat,
                         definitions: seq<Definition>, names: seq<string>, notes: Notes, changed: seq<string>,
                         ghost input: Import<W>, ghost trail: seq<Notes>)
    returns (ok: bool, notes': Notes, changed': seq<string>)
    requires DistinctObjects(settings) && DistinctObjects(entries) && k < |settings|
    requires IsInput(settings, entries, codec, keys, definitions, names, input)
    requires Fits(input, StateOf(settings, entries, changed))
    requires |trail| == |settings| + 1 && IsTrail(definitions, names, trail, |settings|) && notes == trail[k]
    modifies settings, entries
    ensures ok <==> Step(input, k, old(StateOf(settings, entries, changed))).Some?
    ensures ok ==> Step(input, k, old(StateOf(settings, entries, changed))) == Some(StateOf(settings, entries, changed'))
    ensures ok ==> notes' == trail[k + 1]
  {
    TrailAt(definitions, names, trail, |settings|, k);
    ResolvedAt(definitions, names, input.targets, |settings|, k);
    var found;
    found, notes' := GetImportMatch(definitions, names, definitions[k], notes);
    ok, changed' := true, changed;
    if found.Some? {
      ok, changed' := ApplyEntry(settings, entries, codec, keys, k, found.value, changed, definitions, names, input);
    }
  }

  ghost predicate Reached<W>(input: Import<W>, k: nat, start: State<W>, s: State<W>)
    requires Fits(input, start) && k <= |input.settings|
  {
    Run(input, k, start) == Some(s)
  }

  lemma ReachNext<W>(input: Import<W>, k: nat, start: State<W>, s: State<W>)
    requires Fits(input, start) && k < |input.settings| && Reached(input, k, start, s)
    ensures Fits(input, s)
    ensures Step(input, k, s).Some? ==> Reached(input, k + 1, start, Step(input, k, s).value)
    ensures Step(input, k, s).None? ==> Run(input, |input.settings|, start).None?
  {
    if Step(input, k, s).None? {
      RunFails(input, k + 1, start);
    }
  }

  /** The loop has applied the first k settings. */
  ghost predicate Applied<W>(settings: seq<SettingEntity<W>>, entries: seq<ImportEntry>, input: Import<W>, trail: seq<Notes>,
                             k: nat, start: State<W>, notes: Notes, changed: seq<string>)
    reads settings, entries
  {
    && Fits(input, start) && k <= |input.settings| && k < |trail|
    && Reached(input, k, start, StateOf(settings, entries, changed)) && notes == trail[k]
  }

  /** What the loop takes as given. */
  ghost predicate Prepared<W>(settings: seq<SettingEntity<W>>, entries: seq<ImportEntry>, codec: Codec<W>, keys: Keys,
                              definitions: seq<Definition>, names: seq<string>, input: Import<W>, trail: seq<Notes>) {
    && DistinctObjects(settings) && DistinctObjects(entries)
    && IsInput(settings, entries, codec, keys, definitions, names, input)
    && |trail| == |settings| + 1 && IsTrail(definitions, names, trail, |settings|)
  }

  ghost predicate Stops<W>(input: Import<W>, start: State<W>) {
    Fits(input, start) && Run(input, |input.settings|, start).None?
  }

  method ApplyNext<W>(settings: seq<SettingEntity<W>>, entries: seq<ImportEntry>, codec: Codec<W>, keys: Keys, k: nat,
                      definitions: seq<Definition>, names: seq<string>, notes: Notes, changed: seq<string>,
                      ghost input: Import<W>, ghost trail: seq<Notes>, ghost start: State<W>)
    returns (ok: bool, notes': Notes, changed': seq<string>)
    requires k < |settings| && Prepared(settings, entries, codec, keys, definitions, names, input, trail)
    requires Applied(settings, entries, input, trail, k, start, notes, changed)
    modifies settings, entries
    ensures if ok then Applied(settings, entries, input, trail, k + 1, start, notes', changed') else Stops(input, start)
  {
    ReachNext(input, k, start, StateOf(settings, entries, changed));
    ok, notes', changed' := ApplySetting(settings, entries, codec, keys, k, definitions, names, notes, changed, input, trail);
  }

  /** The loop over the settings of the client. */
  method ApplyAll<W>(settings: seq<SettingEntity<W>>, entries: seq<ImportEntry>, codec: Codec<W>, keys: Keys,
                     definitions: seq<Definition>, names: seq<string>, ghost input: Import<W>, ghost trail: seq<Notes>, ghost start: State<W>)
    returns (ok: bool, notes: Notes, changed: seq<string>)
    requires Prepared(settings, entries, codec, keys, definitions, names, input, trail)
    requires Applied(settings, entries, input, trail, 0, start, Notes({}, []), [])
    modifies settings, entries
    ensures if ok then Applied(settings, entries, input, trail, |settings|, start, notes, changed) else Stops(input, start)
  {
    notes, changed := Notes({}, []), [];
    for k := 0 to |settings|
      invariant Applied(settings, entries, input, trail, k, start, notes, changed)
    {
      ok, notes, changed := ApplyNext(settings, entries, codec, keys, k, definitions, names, notes, changed, input, trail, start);
      if !ok {
        return;
      }
    }
    ok := true;
  }

  /** Every setting has settled, and the changed names are exactly those of the settings whose value
      was replaced. */
  ghost predicate ImportSettled<W>(input: Import<W>, before: State<W>, after: State<W>)
    requires Fits(input, before)
  {
    && Fits(input, after)
    && exists changes: seq<bool> :: |changes| == |input.settings| && SettledWith(input, before, after, changes)
  }

  ghost predicate SettledWith<W>(input: Import<W>, before: State<W>, after: State<W>, changes: seq<bool>)
    requires Fits(input, before) && Fits(input, after) && |changes| == |input.settings|
  {
    && (forall j :: 0 <= j < |changes| ==> Settled(input, before, j, after.helds[j], changes[j]))
    && (forall name :: name in after.changed <==>
          name in before.changed || exists j :: 0 <= j < |changes| && changes[j] && input.settings[j].name == name)
  }

  lemma RunSettles<W>(input: Import<W>, keys: Keys, before: State<W>, after: State<W>)
    requires Fits(input, before) && input.open == Opener(keys) && Run(input, |input.settings|, before) == Some(after)
    ensures ImportSettled(input, before, after)
  {
    OpenerClearsMark(keys);
    forall j | 0 <= j < |input.settings|
      ensures Settled(input, before, j, after.helds[j], ChangesAt(input, before, j))
    {
      EachSettingSettles(input, before, j);
    }
    var n := |input.settings|;
    var changes := seq(n, j requires 0 <= j < n => ChangesAt(input, before, j));
    forall name
      ensures name in after.changed <==> name in before.changed || exists j :: 0 <= j < n && changes[j] && input.settings[j].name == name
    {
      ChangedNames(input, n, before, name);
      assert forall j :: 0 <= j < n ==> changes[j] == ChangesAt(input, before, j);
    }
    assert SettledWith(input, before, after, changes);
  }

  /** `ApplySettings`. It fails only when an entry that a setting takes cannot be decrypted. */
  method ApplySettings<W>(settings: seq<SettingEntity<W>>, entries: seq<ImportEntry>, codec: Codec<W>, keys: Keys)
    returns (ok: bool, notes: Notes, changed: seq<string>)
    requires DistinctObjects(settings) && DistinctObjects(entries)
    modifies settings, entries
    ensures Fits(InputOf(settings, entries, codec, keys), old(StateOf(settings, entries, [])))
    ensures ok <==> Run(InputOf(settings, entries, codec, keys), |settings|, old(StateOf(settings, entries, []))).Some?
    ensures ok ==> Run(InputOf(settings, entries, codec, keys), |settings|, old(StateOf(settings, entries, [])))
                   == Some(StateOf(settings, entries, changed))
    ensures ok ==> notes == Noted(Definitions(settings), Names(entries), |settings|)
    ensures ok ==> ImportSettled(InputOf(settings, entries, codec, keys), old(StateOf(settings, entries, [])), StateOf(settings, entries, changed))
  {
    ghost var before := StateOf(settings, entries, []);
    var definitions, names := Definitions(settings), Names(entries);
    InputFits(settings, entries, codec, keys, []);
    ghost var trail := TrailExists(definitions, names, |settings|);
    TargetsResolve(definitions, names, Targets(definitions, names), |settings|);
    ok, notes, changed := ApplyAll(settings, entries, codec, keys, definitions, names,
                                   InputOf(settings, entries, codec, keys), trail, StateOf(settings, entries, []));
    if ok {
      RunSettles(InputOf(settings, entries, codec, keys), keys, before, StateOf(settings, entries, changed));
    }
  }

  /** `UpdateClient`: after a successful import every setting has the value of the entry it
      resolves to or its old one, and exactly the names that nothing handled are reported. */
  method UpdateClient<W>(settings: seq<SettingEntity<W>>, entries: seq<ImportEntry>, codec: Codec<W>, keys: Keys)
    returns (ok: bool, warnings: seq<Warning>, missing: seq<string>, ghost changed: seq<string>)
    requires DistinctObjects(settings) && DistinctObjects(entries)
    modifies settings, entries
    ensures Fits(InputOf(settings, entries, codec, keys), old(StateOf(settings, entries, [])))
    ensures ok ==> ImportSettled(InputOf(settings, entries, codec, keys), old(StateOf(settings, entries, [])), StateOf(settings, entries, changed))
    ensures ok ==> AreMissing(Definitions(settings), Names(entries), missing)
    ensures ok ==> AreWarnings(Definitions(settings), Names(entries), warnings)
  {
    var notes, applied;
    ok, notes, applied := ApplySettings(settings, entries, codec, keys);
    changed := applied;
    warnings := notes.warnings;
    missing := Missing(Definitions(settings), Names(entries), notes.handled);
    NotesMean(Definitions(settings), Names(entries));
  }
}
