/**
 What the stages of the encryption migration mean for each of the six stores: which records keep
 saying what they said, and under which secrets.
 */
module MigratedStores {
  import opened Text
  import opened Encryption
  import opened ReEncryption
  import opened Migration
  import opened Checkpoints
  import opened SavedStores

  /** Every event log is untouched, or was pending and reads as before under either configuration. */
  ghost predicate EventLogsKept(c: Cipher, s: Secrets, date: int, before: map<nat, EventLogRow>, after: map<nat, EventLogRow>) {
    && after.Keys == before.Keys
    && forall id :: id in after ==>
         after[id] == before[id] || (id in Pending(EventLogKind(c, s), before, date) && SameEventLog(c, s, before[id], after[id]))
  }

  /** Nothing is pending any more, and all that was reads as before. */
  ghost predicate EventLogsMigrated(c: Cipher, s: Secrets, date: int, before: map<nat, EventLogRow>, after: map<nat, EventLogRow>) {
    && EventLogsKept(c, s, date, before, after)
    && Pending(EventLogKind(c, s), after, date) == {}
    && forall id :: id in Pending(EventLogKind(c, s), before, date) ==> SameEventLog(c, s, before[id], after[id])
  }

  ghost predicate HistoryKept<V>(c: Cipher, s: Secrets, json: Json<V>, date: int, before: map<nat, HistoryRow>, after: map<nat, HistoryRow>) {
    && after.Keys == before.Keys
    && forall id :: id in after ==>
         after[id] == before[id] || (id in Pending(HistoryKind(c, s, json), before, date) && SameHistory(c, s, json, before[id], after[id]))
  }

  ghost predicate HistoryMigrated<V>(c: Cipher, s: Secrets, json: Json<V>, date: int, before: map<nat, HistoryRow>, after: map<nat, HistoryRow>) {
    && HistoryKept(c, s, json, date, before, after)
    && Pending(HistoryKind(c, s, json), after, date) == {}
    && forall id :: id in Pending(HistoryKind(c, s, json), before, date) ==> SameHistory(c, s, json, before[id], after[id])
  }

  ghost predicate CheckpointsKept(c: Cipher, s: Secrets, json: Json<Export>, date: int, before: map<nat, CheckpointRow>, after: map<nat, CheckpointRow>) {
    && after.Keys == before.Keys
    && forall id :: id in after ==>
         after[id] == before[id] || (id in Pending(CheckpointKind(c, s, json), before, date) && SameCheckpoint(c, s, json, before[id], after[id]))
  }

  ghost predicate CheckpointsMigrated(c: Cipher, s: Secrets, json: Json<Export>, date: int, before: map<nat, CheckpointRow>, after: map<nat, CheckpointRow>) {
    && CheckpointsKept(c, s, json, date, before, after)
    && Pending(CheckpointKind(c, s, json), after, date) == {}
    && forall id :: id in Pending(CheckpointKind(c, s, json), before, date) ==> SameCheckpoint(c, s, json, before[id], after[id])
  }

  /** Every client is untouched, or the user has access to it and its values read as before. */
  ghost predicate ClientsKept<V>(c: Cipher, s: Secrets, json: Json<V>, hasAccess: string -> bool, before: map<nat, ClientRow>, after: map<nat, ClientRow>) {
    && after.Keys == before.Keys
    && forall id :: id in after ==>
         after[id] == before[id] || (hasAccess(before[id].name) && SameClient(c, s, json, before[id], after[id]))
  }

  /** All values of the clients the user has access to read as before, under the current secret
      alone too; the other clients are untouched. */
  ghost predicate ClientsMigrated<V>(c: Cipher, s: Secrets, json: Json<V>, hasAccess: string -> bool, before: map<nat, ClientRow>, after: map<nat, ClientRow>) {
    && after.Keys == before.Keys
    && forall id :: id in after ==>
         if hasAccess(before[id].name) then SameClient(c, s, json, before[id], after[id]) else after[id] == before[id]
  }

  ghost predicate WebHooksKept(c: Cipher, s: Secrets, before: map<nat, WebHookRow>, after: map<nat, WebHookRow>) {
    after.Keys == before.Keys && forall id :: id in after ==> after[id] == before[id] || SameWebHook(c, s, before[id], after[id])
  }

  ghost predicate WebHooksMigrated(c: Cipher, s: Secrets, before: map<nat, WebHookRow>, after: map<nat, WebHookRow>) {
    after.Keys == before.Keys && forall id :: id in after ==> SameWebHook(c, s, before[id], after[id])
  }

  ghost predicate ChangesKept<W>(c: Cipher, s: Secrets, json: Json<W>, before: map<nat, ChangeRow>, after: map<nat, ChangeRow>) {
    after.Keys == before.Keys && forall id :: id in after ==> after[id] == before[id] || SameChange(c, s, json, before[id], after[id])
  }

  ghost predicate ChangesMigrated<W>(c: Cipher, s: Secrets, json: Json<W>, before: map<nat, ChangeRow>, after: map<nat, ChangeRow>) {
    after.Keys == before.Keys && forall id :: id in after ==> SameChange(c, s, json, before[id], after[id])
  }

  lemma ClientsAfter<V(!new)>(c: Cipher, s: Secrets, json: Json<V>, hasAccess: string -> bool, wanted: ClientRow -> bool, date: int,
                              before: map<nat, ClientRow>, after: map<nat, ClientRow>, completed: bool)
    requires Lawful(c) && JsonLaw(json) && forall r :: wanted(r) <==> hasAccess(r.name)
    requires StoreAfter(ClientKind(c, s, json), date, Chosen(before, wanted), before, after, completed)
    ensures ClientsKept(c, s, json, hasAccess, before, after)
    ensures completed ==> ClientsMigrated(c, s, json, hasAccess, before, after)
  {
    forall id | id in after && Migrated(ClientKind(c, s, json), date, before[id], after[id]) ensures SameClient(c, s, json, before[id], after[id]) {
      ClientPreserved(c, s, json, date, before[id], after[id]);
    }
  }

  lemma WebHooksAfter(c: Cipher, s: Secrets, wanted: WebHookRow -> bool, date: int,
                      before: map<nat, WebHookRow>, after: map<nat, WebHookRow>, completed: bool)
    requires Lawful(c) && forall r :: wanted(r)
    requires StoreAfter(WebHookKind(c, s), date, Chosen(before, wanted), before, after, completed)
    ensures WebHooksKept(c, s, before, after)
    ensures completed ==> WebHooksMigrated(c, s, before, after)
  {
    forall id | id in after && Migrated(WebHookKind(c, s), date, before[id], after[id]) ensures SameWebHook(c, s, before[id], after[id]) {
      WebHookPreserved(c, s, date, before[id], after[id]);
    }
  }

  lemma ChangesAfter<W(!new)>(c: Cipher, s: Secrets, json: Json<W>, wanted: ChangeRow -> bool, date: int,
                              before: map<nat, ChangeRow>, after: map<nat, ChangeRow>, completed: bool)
    requires Lawful(c) && JsonLaw(json) && forall r :: wanted(r)
    requires StoreAfter(ChangeKind(c, s, json), date, Chosen(before, wanted), before, after, completed)
    ensures ChangesKept(c, s, json, before, after)
    ensures completed ==> ChangesMigrated(c, s, json, before, after)
  {
    forall id | id in after && Migrated(ChangeKind(c, s, json), date, before[id], after[id]) ensures SameChange(c, s, json, before[id], after[id]) {
      ChangePreserved(c, s, json, date, before[id], after[id]);
    }
  }

  /** A completed stage over stamped records leaves none pending. */
  lemma NonePending<Stored, Loaded>(kind: Kind<Stored, Loaded>, date: int, before: map<nat, Stored>, after: map<nat, Stored>)
    requires forall x: Loaded, now {:trigger kind.save(x, now)} :: kind.stamp(kind.persist(kind.save(x, now))) == now
    requires StoreAfter(kind, date, Pending(kind, before, date), before, after, true)
    ensures Pending(kind, after, date) == {}
  {
    forall id | id in after ensures kind.stamp(after[id]) > date {
      if id in Pending(kind, before, date) {
        assert Migrated(kind, date, before[id], after[id]);
      }
    }
  }

  lemma EventLogsAfter(c: Cipher, s: Secrets, date: int, before: map<nat, EventLogRow>, after: map<nat, EventLogRow>, completed: bool)
    requires Lawful(c) && StoreAfter(EventLogKind(c, s), date, Pending(EventLogKind(c, s), before, date), before, after, completed)
    ensures EventLogsKept(c, s, date, before, after)
    ensures completed ==> EventLogsMigrated(c, s, date, before, after)
  {
    forall id | id in after && Migrated(EventLogKind(c, s), date, before[id], after[id]) ensures SameEventLog(c, s, before[id], after[id]) {
      EventLogPreserved(c, s, date, before[id], after[id]);
    }
    if completed {
      NonePending(EventLogKind(c, s), date, before, after);
    }
  }

  lemma HistoryAfter<V(!new)>(c: Cipher, s: Secrets, json: Json<V>, date: int, before: map<nat, HistoryRow>, after: map<nat, HistoryRow>, completed: bool)
    requires Lawful(c) && JsonLaw(json)
    requires StoreAfter(HistoryKind(c, s, json), date, Pending(HistoryKind(c, s, json), before, date), before, after, completed)
    ensures HistoryKept(c, s, json, date, before, after)
    ensures completed ==> HistoryMigrated(c, s, json, date, before, after)
  {
    forall id | id in after && Migrated(HistoryKind(c, s, json), date, before[id], after[id]) ensures SameHistory(c, s, json, before[id], after[id]) {
      HistoryPreserved(c, s, json, date, before[id], after[id]);
    }
    if completed {
      NonePending(HistoryKind(c, s, json), date, before, after);
    }
  }

  lemma CheckpointsAfter(c: Cipher, s: Secrets, json: Json<Export>, date: int, before: map<nat, CheckpointRow>, after: map<nat, CheckpointRow>, completed: bool)
    requires Lawful(c) && JsonLaw(json)
    requires StoreAfter(CheckpointKind(c, s, json), date, Pending(CheckpointKind(c, s, json), before, date), before, after, completed)
    ensures CheckpointsKept(c, s, json, date, before, after)
    ensures completed ==> CheckpointsMigrated(c, s, json, date, before, after)
  {
    forall id | id in after && Migrated(CheckpointKind(c, s, json), date, before[id], after[id]) ensures SameCheckpoint(c, s, json, before[id], after[id]) {
      CheckpointPreserved(c, s, json, date, before[id], after[id]);
    }
    if completed {
      NonePending(CheckpointKind(c, s, json), date, before, after);
    }
  }

  // ----- what stops a stage

  ghost function Accessible(hasAccess: string -> bool, rows: map<nat, ClientRow>): set<nat> {
    set id | id in rows && hasAccess(rows[id].name)
  }

  /** No client of the user has a value that not exactly one configured key turns into JSON of a
      value. */
  ghost predicate ClientsFree<V>(c: Cipher, s: Secrets, json: Json<V>, hasAccess: string -> bool, rows: map<nat, ClientRow>) {
    forall id, i :: id in rows && hasAccess(rows[id].name) && 0 <= i < |rows[id].valuesAsJson| ==>
      !Undecided(c, s, json, rows[id].valuesAsJson[i])
  }

  lemma ClientsOpen<V>(c: Cipher, s: Secrets, json: Json<V>, hasAccess: string -> bool, wanted: ClientRow -> bool, rows: map<nat, ClientRow>)
    requires forall r :: wanted(r) <==> hasAccess(r.name)
    ensures Chosen(rows, wanted) == Accessible(hasAccess, rows)
    ensures ChosenOpen(ClientKind(c, s, json), rows, Chosen(rows, wanted)) <==> ClientsFree(c, s, json, hasAccess, rows)
  {
    forall id | id in rows
      ensures Prepared(ClientKind(c, s, json), rows[id]).None? <==>
                exists i :: 0 <= i < |rows[id].valuesAsJson| && Undecided(c, s, json, rows[id].valuesAsJson[i])
    {
      ClientStops(c, s, json, rows[id]);
    }
  }

  /** No web hook secret is text that no configured key opens. */
  ghost predicate WebHooksFree(c: Cipher, s: Secrets, rows: map<nat, WebHookRow>) {
    forall id :: id in rows ==> Opens(c, s, rows[id].secretEncrypted)
  }

  ghost predicate Opens(c: Cipher, s: Secrets, text: Option<string>) {
    text.Some? && text.value != "" ==> exists k :: k in s.Keys() && c.open(k, text.value).Opened?
  }

  lemma WebHooksOpen(c: Cipher, s: Secrets, wanted: WebHookRow -> bool, rows: map<nat, WebHookRow>)
    requires Lawful(c) && forall r :: wanted(r)
    ensures Chosen(rows, wanted) == rows.Keys
    ensures ChosenOpen(WebHookKind(c, s), rows, Chosen(rows, wanted)) <==> WebHooksFree(c, s, rows)
  {
    forall id | id in rows ensures Prepared(WebHookKind(c, s), rows[id]).Some? <==> Opens(c, s, rows[id].secretEncrypted) {
      WebHookStops(c, s, rows[id]);
    }
  }

  ghost predicate EventLogsFree(c: Cipher, s: Secrets, date: int, rows: map<nat, EventLogRow>) {
    forall id :: id in rows && rows[id].lastEncrypted <= date ==> !UndecipherableLog(c, s, rows[id])
  }

  lemma EventLogsOpen(c: Cipher, s: Secrets, date: int, rows: map<nat, EventLogRow>)
    requires Lawful(c)
    ensures AllOpen(EventLogKind(c, s), rows, date) <==> EventLogsFree(c, s, date, rows)
  {
    forall id | id in rows ensures Prepared(EventLogKind(c, s), rows[id]).None? <==> UndecipherableLog(c, s, rows[id]) {
      EventLogStops(c, s, rows[id]);
    }
  }

  ghost predicate HistoryFree<V>(c: Cipher, s: Secrets, json: Json<V>, date: int, rows: map<nat, HistoryRow>) {
    forall id :: id in rows && rows[id].lastEncrypted <= date ==> !Undecided(c, s, json, rows[id].valueAsJsonEncrypted)
  }

  lemma HistoryOpens<V>(c: Cipher, s: Secrets, json: Json<V>, date: int, rows: map<nat, HistoryRow>)
    ensures AllOpen(HistoryKind(c, s, json), rows, date) <==> HistoryFree(c, s, json, date, rows)
  {
    forall id | id in rows
      ensures Prepared(HistoryKind(c, s, json), rows[id]).None? <==> Undecided(c, s, json, rows[id].valueAsJsonEncrypted)
    {
      HistoryStops(c, s, json, rows[id]);
    }
  }

  ghost predicate CheckpointsFree(c: Cipher, s: Secrets, json: Json<Export>, date: int, rows: map<nat, CheckpointRow>) {
    forall id :: id in rows && rows[id].lastEncrypted <= date ==> !UndecipherableCheckpoint(c, s, json, rows[id])
  }

  lemma CheckpointsOpen(c: Cipher, s: Secrets, json: Json<Export>, date: int, rows: map<nat, CheckpointRow>)
    requires Lawful(c)
    ensures AllOpen(CheckpointKind(c, s, json), rows, date) <==> CheckpointsFree(c, s, json, date, rows)
  {
    forall id | id in rows
      ensures Prepared(CheckpointKind(c, s, json), rows[id]).None? <==> UndecipherableCheckpoint(c, s, json, rows[id])
    {
      CheckpointStops(c, s, json, rows[id]);
    }
  }

  ghost predicate ChangesFree<W>(c: Cipher, s: Secrets, json: Json<W>, rows: map<nat, ChangeRow>) {
    forall id :: id in rows ==> !Undecided(c, s, json, rows[id].changeSetAsJson)
  }

  lemma ChangesOpen<W>(c: Cipher, s: Secrets, json: Json<W>, wanted: ChangeRow -> bool, rows: map<nat, ChangeRow>)
    requires forall r :: wanted(r)
    ensures Chosen(rows, wanted) == rows.Keys
    ensures ChosenOpen(ChangeKind(c, s, json), rows, Chosen(rows, wanted)) <==> ChangesFree(c, s, json, rows)
  {
    forall id | id in rows ensures Prepared(ChangeKind(c, s, json), rows[id]).None? <==> Undecided(c, s, json, rows[id].changeSetAsJson) {
      ChangeStops(c, s, json, rows[id]);
    }
  }

  // ----- the clients the user has no access to

  ghost predicate ReadsAlone<V>(c: Cipher, s: Secrets, json: Json<V>, r: ClientRow, r': ClientRow) {
    ReadClient(c, Alone(s), json, r') == ReadClient(c, s, json, r)
  }

  /** After a completed run the previous secret can be taken out without loss exactly if that was
      so before for every client outside the filter of the user who ran the migration. */
  lemma PreviousSecretIsRedundantExactlyIf<V>(c: Cipher, s: Secrets, json: Json<V>, hasAccess: string -> bool,
                                              before: map<nat, ClientRow>, after: map<nat, ClientRow>)
    requires ClientsMigrated(c, s, json, hasAccess, before, after)
    ensures (forall id :: id in before ==> ReadsAlone(c, s, json, before[id], after[id]))
            <==> forall id :: id in before && !hasAccess(before[id].name) ==> ReadsAlone(c, s, json, before[id], before[id])
  {
    forall id | id in before && hasAccess(before[id].name) ensures ReadsAlone(c, s, json, before[id], after[id]) {
      var r, r' := before[id], after[id];
      forall i | 0 <= i < |r.valuesAsJson| ensures ReadClient(c, Alone(s), json, r')[i] == ReadClient(c, s, json, r)[i] {
        assert SameJson(c, s, json, r.valuesAsJson[i], r'.valuesAsJson[i]);
      }
    }
    assert forall id :: id in before && !hasAccess(before[id].name) ==> after[id] == before[id];
  }

  /** A value sealed under the previous secret, of a client outside the filter, reads before the
      run and is unreadable once the previous secret is taken out, although the run completed. */
  lemma FilteredClientIsLost<V(!new)>(c: Cipher, s: Secrets, json: Json<V>, hasAccess: string -> bool, before: map<nat, ClientRow>,
                                      after: map<nat, ClientRow>, id: nat, value: V)
    requires Lawful(c) && JsonLaw(json) && s.HasPrevious() && s.previous.value != s.current
    requires ClientsMigrated(c, s, json, hasAccess, before, after) && id in before && !hasAccess(before[id].name)
    requires before[id].valuesAsJson == [Some(Seal(c, s.previous.value, json.render(value)))]
    ensures ReadClient(c, s, json, before[id]) == [Reads(value)]
    ensures ReadClient(c, Alone(s), json, after[id]) == [Unreadable]
  {
    var text := Seal(c, s.previous.value, json.render(value));
    assert text != "" && c.open(s.previous.value, text).Opened? && !c.open(s.current, text).Opened?;
    assert ReadJson(c, s, json, Some(text)) == Reads(value);
    assert ReadJson(c, Alone(s), json, Some(text)) == Unreadable;
    assert after[id] == before[id];
  }
}
