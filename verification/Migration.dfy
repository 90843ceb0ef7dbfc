/**
 What the encryption migration does to event logs, setting history and checkpoints, and that
 it preserves what they say (src/api/Fig.Api/Services/EncryptionMigrationService.cs and the
 entity extensions under src/api/Fig.Api/ExtensionMethods).
 */
module Migration {
  import opened Text
  import opened Encryption
  import opened ReEncryption

  const EVENT_LOG_BATCH: nat := 1000
  const HISTORY_BATCH: nat := 1000
  const CHECKPOINT_BATCH: nat := 50

  /** The configuration after the previous secret has been taken out. */
  function Alone(s: Secrets): Secrets {
    Secrets(s.current, None)
  }

  /** Lenient decryption as the migration performs it: previous secret first. */
  function Lenient(c: Cipher, s: Secrets, text: Option<string>): Decrypted {
    Decrypt(c, s, text, true, false)
  }

  /** A text re-encrypted under the current secret reads the same under the current secret
      alone, and with both secrets in either order. */
  lemma ResealedReadsSame(c: Cipher, s: Secrets, text: Option<string>, fallbackFirst: bool, throwOnFailure: bool)
    requires Lawful(c) && Decrypt(c, s, text, true, throwOnFailure).Plain?
    ensures var before := Decrypt(c, s, text, true, throwOnFailure);
            var text' := Encrypt(c, s, before.text);
            && Decrypt(c, Alone(s), text', fallbackFirst, throwOnFailure) == before
            && Decrypt(c, s, text', fallbackFirst, throwOnFailure) == before
  {
    var plain := Decrypt(c, s, text, true, throwOnFailure).text;
    if plain.Some? {
      DecryptInvertsSeal(c, Alone(s), s.current, plain.value, fallbackFirst, throwOnFailure);
      DecryptInvertsSeal(c, s, s.current, plain.value, fallbackFirst, throwOnFailure);
    }
  }

  // ----- event logs

  datatype EventLogRow = EventLogRow(newValueEncrypted: Option<string>, originalValueEncrypted: Option<string>, lastEncrypted: int)

  datatype EventLog = EventLog(row: EventLogRow, newValue: Option<string>, originalValue: Option<string>)

  function DecryptEventLog(c: Cipher, s: Secrets, log: EventLog): Option<EventLog> {
    match Lenient(c, s, log.row.newValueEncrypted)
    case Failed(_) => None
    case Plain(newValue) =>
      match Lenient(c, s, log.row.originalValueEncrypted)
      case Failed(_) => None
      case Plain(originalValue) => Some(log.(newValue := newValue, originalValue := originalValue))
  }

  function SaveEventLog(c: Cipher, s: Secrets, log: EventLog, now: int): EventLog {
    log.(row := EventLogRow(
      if log.newValue.Some? then Encrypt(c, s, log.newValue) else log.row.newValueEncrypted,
      if log.originalValue.Some? then Encrypt(c, s, log.originalValue) else log.row.originalValueEncrypted,
      now))
  }

  function EventLogKind(c: Cipher, s: Secrets): Kind<EventLogRow, EventLog> {
    Kind((r: EventLogRow) => r.lastEncrypted,
         (r: EventLogRow) => EventLog(r, None, None),
         (log: EventLog) => DecryptEventLog(c, s, log),
         (log: EventLog) => Some(log),
         (log: EventLog, now: int) => SaveEventLog(c, s, log, now),
         (log: EventLog) => log.row)
  }

  /** What a reader gets for the two values of an event log. */
  function ReadEventLog(c: Cipher, s: Secrets, r: EventLogRow, fallbackFirst: bool): (Decrypted, Decrypted) {
    (Decrypt(c, s, r.newValueEncrypted, fallbackFirst, false), Decrypt(c, s, r.originalValueEncrypted, fallbackFirst, false))
  }

  /** r' says under the current secret alone, and with both secrets in either order, what r
      said with both. */
  ghost predicate SameEventLog(c: Cipher, s: Secrets, r: EventLogRow, r': EventLogRow) {
    forall first :: ReadEventLog(c, Alone(s), r', first) == ReadEventLog(c, s, r', first) == ReadEventLog(c, s, r, true)
  }

  lemma EventLogPreserved(c: Cipher, s: Secrets, date: int, r: EventLogRow, r': EventLogRow)
    requires Lawful(c) && Migrated(EventLogKind(c, s), date, r, r')
    ensures SameEventLog(c, s, r, r')
  {
    forall first ensures ReadEventLog(c, Alone(s), r', first) == ReadEventLog(c, s, r', first) == ReadEventLog(c, s, r, true) {
      ResealedReadsSame(c, s, r.newValueEncrypted, first, false);
      ResealedReadsSame(c, s, r.originalValueEncrypted, first, false);
    }
  }

  /** An event log whose new or original value is well-formed text that none of two configured
      secrets opens. */
  ghost predicate UndecipherableLog(c: Cipher, s: Secrets, r: EventLogRow) {
    Undecipherable(c, s, r.newValueEncrypted) || Undecipherable(c, s, r.originalValueEncrypted)
  }

  /** Exactly these event logs stop the migration. */
  lemma EventLogStops(c: Cipher, s: Secrets, r: EventLogRow)
    requires Lawful(c)
    ensures Prepared(EventLogKind(c, s), r).None? <==> UndecipherableLog(c, s, r)
  {
    LenientDecryptFails(c, s, r.newValueEncrypted, true);
    LenientDecryptFails(c, s, r.originalValueEncrypted, true);
  }

  /** An event log with a value sealed under a secret that is no longer configured. */
  ghost predicate ForeignLog(c: Cipher, s: Secrets, r: EventLogRow) {
    exists k, plain {:trigger Seal(c, k, plain)} ::
      k !in s.Keys() && plain != "" && Some(Seal(c, k, plain)) in [r.newValueEncrypted, r.originalValueEncrypted]
  }

  lemma ForeignLogStops(c: Cipher, s: Secrets, r: EventLogRow)
    requires Lawful(c) && s.HasPrevious() && ForeignLog(c, s, r)
    ensures UndecipherableLog(c, s, r)
  {
    var k, plain :| k !in s.Keys() && plain != "" && Some(Seal(c, k, plain)) in [r.newValueEncrypted, r.originalValueEncrypted];
    ForeignTextFails(c, s, k, plain, true, false);
  }

  /** The migration of event logs opens all of them exactly if none is undecipherable. */
  lemma LogsStop(c: Cipher, s: Secrets, rows: map<nat, EventLogRow>, date: int)
    requires Lawful(c)
    ensures !AllOpen(EventLogKind(c, s), rows, date) <==>
              exists id :: id in Pending(EventLogKind(c, s), rows, date) && UndecipherableLog(c, s, rows[id])
    ensures s.HasPrevious() && (exists id :: id in Pending(EventLogKind(c, s), rows, date) && ForeignLog(c, s, rows[id]))
            ==> !AllOpen(EventLogKind(c, s), rows, date)
  {
    forall id | id in Pending(EventLogKind(c, s), rows, date)
      ensures Prepared(EventLogKind(c, s), rows[id]).None? <==> UndecipherableLog(c, s, rows[id])
    {
      EventLogStops(c, s, rows[id]);
    }
    if id :| s.HasPrevious() && id in Pending(EventLogKind(c, s), rows, date) && ForeignLog(c, s, rows[id]) {
      ForeignLogStops(c, s, rows[id]);
    }
  }

  /** After a completed run every pending event log reads under the current secret alone as it
      read before, and no other is touched; after a failed run every event log still reads as
      before with both secrets. Exactly an undecipherable event log makes it fail, and any value
      sealed under a secret that is no longer configured is undecipherable. */
  method PerformEventLogMigration(c: Cipher, s: Secrets, repository: Repository<EventLogRow>, secretChangeDate: int) returns (outcome: Outcome)
    requires Lawful(c) && repository.clock >= secretChangeDate
    modifies repository
    ensures repository.clock >= secretChangeDate
    ensures repository.rows.Keys == old(repository.rows).Keys
    ensures outcome.Completed? <==> AllOpen(EventLogKind(c, s), old(repository.rows), secretChangeDate)
    ensures outcome.ApplicationError? <==>
      exists id :: id in Pending(EventLogKind(c, s), old(repository.rows), secretChangeDate) && UndecipherableLog(c, s, old(repository.rows)[id])
    ensures s.HasPrevious()
            && (exists id :: id in Pending(EventLogKind(c, s), old(repository.rows), secretChangeDate) && ForeignLog(c, s, old(repository.rows)[id]))
            ==> outcome.ApplicationError?
    ensures outcome.Completed? ==>
      && outcome.total == |Pending(EventLogKind(c, s), old(repository.rows), secretChangeDate)|
      && Pending(EventLogKind(c, s), repository.rows, secretChangeDate) == {}
      && forall id :: id in Pending(EventLogKind(c, s), old(repository.rows), secretChangeDate) ==>
           SameEventLog(c, s, old(repository.rows)[id], repository.rows[id])
    ensures forall id :: id in repository.rows ==>
      repository.rows[id] == old(repository.rows)[id]
      || (id in Pending(EventLogKind(c, s), old(repository.rows), secretChangeDate)
          && SameEventLog(c, s, old(repository.rows)[id], repository.rows[id]))
  {
    ghost var done;
    outcome, done := PerformBatches(EventLogKind(c, s), repository, secretChangeDate, EVENT_LOG_BATCH);
    LogsStop(c, s, old(repository.rows), secretChangeDate);
    forall id | id in done ensures id in repository.rows && SameEventLog(c, s, old(repository.rows)[id], repository.rows[id]) {
      EventLogPreserved(c, s, secretChangeDate, old(repository.rows)[id], repository.rows[id]);
    }
  }

  // ----- setting history

  /** The JSON form of values. */
  datatype Json<!V> = Json(parse: string -> Option<V>, render: V -> string)

  ghost predicate JsonLaw<V(!new)>(json: Json<V>) {
    forall v {:trigger json.render(v)} :: json.render(v) != "" && json.parse(json.render(v)) == Some(v)
  }

  datatype HistoryRow = HistoryRow(valueAsJsonEncrypted: Option<string>, lastEncrypted: int)

  datatype History<V> = History(row: HistoryRow, value: Option<V>)

  function ValidJson<V>(json: Json<V>): string -> bool {
    (text: string) => json.parse(text).Some?
  }

  /** What `DeserializeAndDecrypt` makes of a setting value; None is an exception. */
  function DecryptHistory<V>(c: Cipher, s: Secrets, json: Json<V>, h: History<V>): Option<History<V>> {
    if h.row.valueAsJsonEncrypted.None? then Some(h)
    else match StrictText(c, s, h.row.valueAsJsonEncrypted.value, ValidJson(json))
      case None => None
      case Some(text) => Some(h.(value := json.parse(text)))
  }

  /** The extension method itself, on the entity: strict validated decryption, with either key
      first. An exception leaves the entity as it was. */
  method DeserializeAndDecrypt<V>(c: Cipher, s: Secrets, json: Json<V>, settingValue: Entity<History<V>>, tryFallbackFirst: bool)
    returns (ok: bool)
    modifies settingValue
    ensures ok <==> DecryptHistory(c, s, json, old(settingValue.data)).Some?
    ensures Some(settingValue.data) == if ok then DecryptHistory(c, s, json, old(settingValue.data)) else Some(old(settingValue.data))
  {
    var encrypted := settingValue.data.row.valueAsJsonEncrypted;
    if encrypted.None? {
      return true;
    }
    var r := DecryptWithValidation(c, s, encrypted, ValidJson(json), tryFallbackFirst, Strict);
    StrictTextIsOutcome(c, s, encrypted.value, ValidJson(json), r);
    if !r.Accepted? {
      return false;
    }
    settingValue.data := settingValue.data.(value := json.parse(r.text.value));
    return true;
  }

  /** `SerializeAndEncrypt`. */
  function SaveHistory<V>(c: Cipher, s: Secrets, json: Json<V>, h: History<V>, now: int): History<V> {
    h.(row := HistoryRow(
      if h.value.None? then h.row.valueAsJsonEncrypted else Encrypt(c, s, Some(json.render(h.value.value))),
      now))
  }

  function HistoryKind<V>(c: Cipher, s: Secrets, json: Json<V>): Kind<HistoryRow, History<V>> {
    Kind((r: HistoryRow) => r.lastEncrypted,
         (r: HistoryRow) => History(r, None),
         (h: History<V>) => DecryptHistory(c, s, json, h),
         (h: History<V>) => Some(h),
         (h: History<V>, now: int) => SaveHistory(c, s, json, h, now),
         (h: History<V>) => h.row)
  }

  datatype Reading<V> = NoValue | Reads(value: V) | Unreadable

  /** What a reader gets for encrypted JSON. */
  function ReadJson<V>(c: Cipher, s: Secrets, json: Json<V>, encrypted: Option<string>): Reading<V> {
    if encrypted.None? then NoValue
    else match StrictText(c, s, encrypted.value, ValidJson(json))
      case None => Unreadable
      case Some(text) => Reads(json.parse(text).value)
  }

  function ReadHistory<V>(c: Cipher, s: Secrets, json: Json<V>, r: HistoryRow): Reading<V> {
    ReadJson(c, s, json, r.valueAsJsonEncrypted)
  }

  ghost predicate SameHistory<V>(c: Cipher, s: Secrets, json: Json<V>, r: HistoryRow, r': HistoryRow) {
    ReadHistory(c, Alone(s), json, r') == ReadHistory(c, s, json, r') == ReadHistory(c, s, json, r)
  }

  lemma HistoryPreserved<V(!new)>(c: Cipher, s: Secrets, json: Json<V>, date: int, r: HistoryRow, r': HistoryRow)
    requires Lawful(c) && JsonLaw(json) && Migrated(HistoryKind(c, s, json), date, r, r')
    ensures SameHistory(c, s, json, r, r')
  {
    if r.valueAsJsonEncrypted.Some? {
      var v := ReadHistory(c, s, json, r).value;
      assert r'.valueAsJsonEncrypted == Some(c.seal(s.current, json.render(v)));
    }
  }

  /** Exactly these history values stop the migration: the number of distinct configured keys
      that yield JSON of a setting value is not one. */
  lemma HistoryStops<V>(c: Cipher, s: Secrets, json: Json<V>, r: HistoryRow)
    ensures Prepared(HistoryKind(c, s, json), r).None? <==>
              && r.valueAsJsonEncrypted.Some?
              && |ValidKeys(c, s, r.valueAsJsonEncrypted.value, ValidJson(json))| != 1
  {
    if r.valueAsJsonEncrypted.Some? {
      StrictTextExists(c, s, r.valueAsJsonEncrypted.value, ValidJson(json));
    }
  }

  method PerformSettingHistoryMigration<V(!new)>(c: Cipher, s: Secrets, json: Json<V>, repository: Repository<HistoryRow>, secretChangeDate: int)
    returns (outcome: Outcome)
    requires Lawful(c) && JsonLaw(json) && repository.clock >= secretChangeDate
    modifies repository
    ensures repository.clock >= secretChangeDate
    ensures repository.rows.Keys == old(repository.rows).Keys
    ensures outcome.Completed? <==> AllOpen(HistoryKind(c, s, json), old(repository.rows), secretChangeDate)
    ensures outcome.Completed? ==>
      && outcome.total == |Pending(HistoryKind(c, s, json), old(repository.rows), secretChangeDate)|
      && Pending(HistoryKind(c, s, json), repository.rows, secretChangeDate) == {}
      && forall id :: id in Pending(HistoryKind(c, s, json), old(repository.rows), secretChangeDate) ==>
           SameHistory(c, s, json, old(repository.rows)[id], repository.rows[id])
    ensures forall id :: id in repository.rows ==>
      repository.rows[id] == old(repository.rows)[id]
      || (id in Pending(HistoryKind(c, s, json), old(repository.rows), secretChangeDate)
          && SameHistory(c, s, json, old(repository.rows)[id], repository.rows[id]))
  {
    ghost var done;
    outcome, done := PerformBatches(HistoryKind(c, s, json), repository, secretChangeDate, HISTORY_BATCH);
    forall id | id in done ensures id in repository.rows && SameHistory(c, s, json, old(repository.rows)[id], repository.rows[id]) {
      HistoryPreserved(c, s, json, secretChangeDate, old(repository.rows)[id], repository.rows[id]);
    }
  }
}
