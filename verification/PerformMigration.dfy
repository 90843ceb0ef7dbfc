/**
 The whole encryption migration (src/api/Fig.Api/Services/EncryptionMigrationService.cs:58-101):
 the stages in order, tracked in the rotation row, over the six stores of encrypted records.
 */
module PerformMigration {
  import opened Text
  import opened Encryption
  import opened ReEncryption
  import opened Migration
  import opened Checkpoints
  import opened SavedStores
  import opened MigratedStores
  import opened TrackedStages
  import State = RotationState
  import Runs = RotationRuns
  import Rotation = RotationService

  datatype ApiHost = ApiHost(hostname: Option<string>, configurationErrorDetected: bool)

  datatype End =
    | LogsOnly                           // no previous secret: event logs migrated, then an exception
    | HostsDisagree
    | Refused(reason: Rotation.Outcome)
    | Migrated
    | Broken

  /** Some active host that has a name reports a different secret. */
  predicate Mismatched(hosts: seq<ApiHost>) {
    exists i :: 0 <= i < |hosts| && hosts[i].configurationErrorDetected && !IsNullOrBlank(hosts[i].hostname)
  }

  /** `ValidateActiveApiHosts`. */
  method ValidateActiveApiHosts(hosts: seq<ApiHost>) returns (ok: bool)
    ensures ok <==> !Mismatched(hosts)
    ensures ok <==> forall i :: 0 <= i < |hosts| ==>
                      hosts[i].configurationErrorDetected ==> hosts[i].hostname.None? || IsBlank(hosts[i].hostname.value)
  {
    for i := 0 to |hosts|
      invariant !Mismatched(hosts[..i])
    {
      if hosts[i].configurationErrorDetected && !IsNullOrBlank(hosts[i].hostname) {
        return false;
      }
      assert hosts[..i + 1] == hosts[..i] + [hosts[i]];
    }
    assert hosts[..|hosts|] == hosts;
    return true;
  }

  // ----- the six stores together

  /** How the records of each store are migrated, and which clients the user has access to. */
  datatype Kinds<!V, !W> = Kinds(
    clients: Kind<ClientRow, Client<V>>, webHooks: Kind<WebHookRow, WebHook>, eventLogs: Kind<EventLogRow, EventLog>,
    history: Kind<HistoryRow, History<V>>, checkpoints: Kind<CheckpointRow, CheckpointRow>, changes: Kind<ChangeRow, Change<W>>,
    wantedClients: ClientRow -> bool, wantedWebHooks: WebHookRow -> bool, wantedChanges: ChangeRow -> bool)

  /** How many saves the database takes in the stages that save records one by one. */
  datatype Saves = Saves(clients: nat, webHooks: nat, changes: nat)

  datatype Stores = Stores(
    clients: Repository<ClientRow>, webHooks: Repository<WebHookRow>, eventLogs: Repository<EventLogRow>,
    history: Repository<HistoryRow>, checkpoints: Repository<CheckpointRow>, changes: Repository<ChangeRow>)

  datatype Data = Data(
    clients: map<nat, ClientRow>, webHooks: map<nat, WebHookRow>, eventLogs: map<nat, EventLogRow>,
    history: map<nat, HistoryRow>, checkpoints: map<nat, CheckpointRow>, changes: map<nat, ChangeRow>)

  ghost function Contents(stores: Stores): Data
    reads stores.clients, stores.webHooks, stores.eventLogs, stores.history, stores.checkpoints, stores.changes
  {
    Data(stores.clients.rows, stores.webHooks.rows, stores.eventLogs.rows, stores.history.rows, stores.checkpoints.rows, stores.changes.rows)
  }

  ghost predicate Usable<V(!new), W(!new)>(kinds: Kinds<V, W>) {
    && NeedsNoPreparation(kinds.clients) && NeedsNoPreparation(kinds.webHooks) && NeedsNoPreparation(kinds.changes)
    && Restamps(kinds.eventLogs) && Restamps(kinds.history) && Restamps(kinds.checkpoints)
  }

  function KindsOf<V, W>(c: Cipher, s: Secrets, values: Json<V>, exports: Json<Export>, changeSets: Json<W>, hasAccess: string -> bool): Kinds<V, W> {
    Kinds(ClientKind(c, s, values), WebHookKind(c, s), EventLogKind(c, s), HistoryKind(c, s, values), CheckpointKind(c, s, exports),
          ChangeKind(c, s, changeSets), (r: ClientRow) => hasAccess(r.name), (r: WebHookRow) => true, (r: ChangeRow) => true)
  }

  lemma KindsAreUsable<V(!new), W(!new)>(c: Cipher, s: Secrets, values: Json<V>, exports: Json<Export>, changeSets: Json<W>,
                                         hasAccess: string -> bool)
    ensures Usable(KindsOf(c, s, values, exports, changeSets, hasAccess))
  {
  }

  const STAGE_IDS := ["setting-client-preparation", "setting-clients", "web-hook-clients", "event-logs", "setting-history", "checkpoints",
                      "deferred-changes"]

  ghost predicate StageIds(all: seq<State.Stage>) {
    |all| == |STAGE_IDS| == 7 && State.WellOrdered(all) && forall i :: 0 <= i < 7 ==> all[i].id == STAGE_IDS[i]
  }

  /** The next stage is number n of the seven with the given ids. */
  ghost predicate Ready(service: Rotation.Service, all: seq<State.Stage>, ids: seq<string>, counts: seq<int>, n: nat)
    reads service, service.store
  {
    && Tracking(service, all) && |counts| == n && AtStage(all, service.store.row.value, counts)
    && |ids| == |all| == 7 && forall i :: 0 <= i < 7 ==> ids[i] == all[i].id
  }

  ghost predicate ClocksPast(stores: Stores, date: int)
    reads stores.clients, stores.webHooks, stores.eventLogs, stores.history, stores.checkpoints, stores.changes
  {
    && stores.clients.clock >= date && stores.webHooks.clock >= date && stores.eventLogs.clock >= date
    && stores.history.clock >= date && stores.checkpoints.clock >= date && stores.changes.clock >= date
  }

  // ----- the stages, from the last one back

  /** `PerformDeferredChangeMigration` and the end. */
  method FromChanges<V(!new), W(!new)>(kinds: Kinds<V, W>, stores: Stores, saves: Saves, service: Rotation.Service, ids: seq<string>, date: int,
                                       ghost before: Data, ghost all: seq<State.Stage>, ghost counts: seq<int>)
    returns (ok: bool, ghost counted: seq<int>)
    requires Usable(kinds) && Ready(service, all, ids, counts, 6)
    requires stores.changes.clock >= date
    requires before.changes == stores.changes.rows
    modifies service`lastUpdateAt, service`lastUpdateRecords, service.store, stores.changes
    ensures ok <==> Resavable(kinds.changes, before.changes, kinds.wantedChanges, saves.changes)
    ensures StoreAfter(kinds.changes, date, Chosen(before.changes, kinds.wantedChanges), before.changes, stores.changes.rows, ok)
    ensures ok ==> CompletionRecorded(all, service.store.row, counted)
    ensures ok ==>
      counted == counts + [|Chosen(before.changes, kinds.wantedChanges)|]
    ensures !ok ==> FailureRecorded(all, service.store.row)
  {
    counted := counts;
    ghost var n := |Chosen(before.changes, kinds.wantedChanges)|;
    ok := ResaveStage(kinds.changes, service, ids[6], stores.changes, kinds.wantedChanges, saves.changes, date, all, counts);
    if ok {
      counted := counts + [n];
      Finish(service, all, counted);
    }
  }

  /** `PerformCheckPointMigration` and what follows. */
  method FromCheckpoints<V(!new), W(!new)>(kinds: Kinds<V, W>, stores: Stores, saves: Saves, service: Rotation.Service, ids: seq<string>, date: int,
                                           ghost before: Data, ghost all: seq<State.Stage>, ghost counts: seq<int>)
    returns (ok: bool, ghost counted: seq<int>)
    requires Usable(kinds) && Ready(service, all, ids, counts, 5)
    requires stores.checkpoints.clock >= date && stores.changes.clock >= date
    requires before.checkpoints == stores.checkpoints.rows && before.changes == stores.changes.rows
    modifies service`lastUpdateAt, service`lastUpdateRecords, service.store, stores.checkpoints, stores.changes
    ensures ok <==>
      (&& AllOpen(kinds.checkpoints, before.checkpoints, date)
       && Resavable(kinds.changes, before.changes, kinds.wantedChanges, saves.changes))
    ensures StoreAfter(kinds.checkpoints, date, Pending(kinds.checkpoints, before.checkpoints, date), before.checkpoints, stores.checkpoints.rows, ok)
    ensures StoreAfter(kinds.changes, date, Chosen(before.changes, kinds.wantedChanges), before.changes, stores.changes.rows, ok)
    ensures ok ==> CompletionRecorded(all, service.store.row, counted)
    ensures ok ==>
      counted == counts + [|Pending(kinds.checkpoints, before.checkpoints, date)|]
                 + [|Chosen(before.changes, kinds.wantedChanges)|]
    ensures !ok ==> FailureRecorded(all, service.store.row)
  {
    counted := counts;
    ghost var n := |Pending(kinds.checkpoints, before.checkpoints, date)|;
    ok := BatchStage(kinds.checkpoints, service, ids[5], stores.checkpoints, CHECKPOINT_BATCH, date, all, counts);
    if ok {
      ok, counted := FromChanges(kinds, stores, saves, service, ids, date, before, all, counts + [n]);
    }
  }

  /** `PerformSettingHistoryMigration` and what follows. */
  method FromHistory<V(!new), W(!new)>(kinds: Kinds<V, W>, stores: Stores, saves: Saves, service: Rotation.Service, ids: seq<string>, date: int,
                                       ghost before: Data, ghost all: seq<State.Stage>, ghost counts: seq<int>)
    returns (ok: bool, ghost counted: seq<int>)
    requires Usable(kinds) && Ready(service, all, ids, counts, 4)
    requires stores.history.clock >= date && stores.checkpoints.clock >= date && stores.changes.clock >= date
    requires before.history == stores.history.rows && before.checkpoints == stores.checkpoints.rows && before.changes == stores.changes.rows
    modifies service`lastUpdateAt, service`lastUpdateRecords, service.store, stores.history, stores.checkpoints, stores.changes
    ensures ok <==>
      (&& AllOpen(kinds.history, before.history, date)
       && AllOpen(kinds.checkpoints, before.checkpoints, date)
       && Resavable(kinds.changes, before.changes, kinds.wantedChanges, saves.changes))
    ensures StoreAfter(kinds.history, date, Pending(kinds.history, before.history, date), before.history, stores.history.rows, ok)
    ensures StoreAfter(kinds.checkpoints, date, Pending(kinds.checkpoints, before.checkpoints, date), before.checkpoints, stores.checkpoints.rows, ok)
    ensures StoreAfter(kinds.changes, date, Chosen(before.changes, kinds.wantedChanges), before.changes, stores.changes.rows, ok)
    ensures ok ==> CompletionRecorded(all, service.store.row, counted)
    ensures ok ==>
      counted == counts + [|Pending(kinds.history, before.history, date)|]
                 + [|Pending(kinds.checkpoints, before.checkpoints, date)|]
                 + [|Chosen(before.changes, kinds.wantedChanges)|]
    ensures !ok ==> FailureRecorded(all, service.store.row)
  {
    counted := counts;
    ghost var n := |Pending(kinds.history, before.history, date)|;
    ok := BatchStage(kinds.history, service, ids[4], stores.history, HISTORY_BATCH, date, all, counts);
    if ok {
      ok, counted := FromCheckpoints(kinds, stores, saves, service, ids, date, before, all, counts + [n]);
    }
  }

  /** `PerformEventLogMigration` and what follows. */
  method FromEventLogs<V(!new), W(!new)>(kinds: Kinds<V, W>, stores: Stores, saves: Saves, service: Rotation.Service, ids: seq<string>, date: int,
                                         ghost before: Data, ghost all: seq<State.Stage>, ghost counts: seq<int>)
    returns (ok: bool, ghost counted: seq<int>)
    requires Usable(kinds) && Ready(service, all, ids, counts, 3)
    requires stores.eventLogs.clock >= date && stores.history.clock >= date && stores.checkpoints.clock >= date && stores.changes.clock >= date
    requires before.eventLogs == stores.eventLogs.rows && before.history == stores.history.rows && before.checkpoints == stores.checkpoints.rows
    requires before.changes == stores.changes.rows
    modifies service`lastUpdateAt, service`lastUpdateRecords, service.store, stores.eventLogs, stores.history, stores.checkpoints, stores.changes
    ensures ok <==>
      (&& AllOpen(kinds.eventLogs, before.eventLogs, date)
       && AllOpen(kinds.history, before.history, date)
       && AllOpen(kinds.checkpoints, before.checkpoints, date)
       && Resavable(kinds.changes, before.changes, kinds.wantedChanges, saves.changes))
    ensures StoreAfter(kinds.eventLogs, date, Pending(kinds.eventLogs, before.eventLogs, date), before.eventLogs, stores.eventLogs.rows, ok)
    ensures StoreAfter(kinds.history, date, Pending(kinds.history, before.history, date), before.history, stores.history.rows, ok)
    ensures StoreAfter(kinds.checkpoints, date, Pending(kinds.checkpoints, before.checkpoints, date), before.checkpoints, stores.checkpoints.rows, ok)
    ensures StoreAfter(kinds.changes, date, Chosen(before.changes, kinds.wantedChanges), before.changes, stores.changes.rows, ok)
    ensures ok ==> CompletionRecorded(all, service.store.row, counted)
    ensures ok ==>
      counted == counts + [|Pending(kinds.eventLogs, before.eventLogs, date)|]
                 + [|Pending(kinds.history, before.history, date)|]
                 + [|Pending(kinds.checkpoints, before.checkpoints, date)|]
                 + [|Chosen(before.changes, kinds.wantedChanges)|]
    ensures !ok ==> FailureRecorded(all, service.store.row)
  {
    counted := counts;
    ghost var n := |Pending(kinds.eventLogs, before.eventLogs, date)|;
    ok := BatchStage(kinds.eventLogs, service, ids[3], stores.eventLogs, EVENT_LOG_BATCH, date, all, counts);
    if ok {
      ok, counted := FromHistory(kinds, stores, saves, service, ids, date, before, all, counts + [n]);
    }
  }

  /** `PerformWebHookClientMigration` and what follows. */
  method FromWebHooks<V(!new), W(!new)>(kinds: Kinds<V, W>, stores: Stores, saves: Saves, service: Rotation.Service, ids: seq<string>, date: int,
                                        ghost before: Data, ghost all: seq<State.Stage>, ghost counts: seq<int>)
    returns (ok: bool, ghost counted: seq<int>)
    requires Usable(kinds) && Ready(service, all, ids, counts, 2)
    requires stores.webHooks.clock >= date && stores.eventLogs.clock >= date && stores.history.clock >= date
    requires stores.checkpoints.clock >= date && stores.changes.clock >= date
    requires before.webHooks == stores.webHooks.rows && before.eventLogs == stores.eventLogs.rows && before.history == stores.history.rows
    requires before.checkpoints == stores.checkpoints.rows && before.changes == stores.changes.rows
    modifies service`lastUpdateAt, service`lastUpdateRecords, service.store,
             stores.webHooks, stores.eventLogs, stores.history, stores.checkpoints, stores.changes
    ensures ok <==>
      (&& Resavable(kinds.webHooks, before.webHooks, kinds.wantedWebHooks, saves.webHooks)
       && AllOpen(kinds.eventLogs, before.eventLogs, date)
       && AllOpen(kinds.history, before.history, date)
       && AllOpen(kinds.checkpoints, before.checkpoints, date)
       && Resavable(kinds.changes, before.changes, kinds.wantedChanges, saves.changes))
    ensures StoreAfter(kinds.webHooks, date, Chosen(before.webHooks, kinds.wantedWebHooks), before.webHooks, stores.webHooks.rows, ok)
    ensures StoreAfter(kinds.eventLogs, date, Pending(kinds.eventLogs, before.eventLogs, date), before.eventLogs, stores.eventLogs.rows, ok)
    ensures StoreAfter(kinds.history, date, Pending(kinds.history, before.history, date), before.history, stores.history.rows, ok)
    ensures StoreAfter(kinds.checkpoints, date, Pending(kinds.checkpoints, before.checkpoints, date), before.checkpoints, stores.checkpoints.rows, ok)
    ensures StoreAfter(kinds.changes, date, Chosen(before.changes, kinds.wantedChanges), before.changes, stores.changes.rows, ok)
    ensures ok ==> CompletionRecorded(all, service.store.row, counted)
    ensures ok ==>
      counted == counts + [|Chosen(before.webHooks, kinds.wantedWebHooks)|]
                 + [|Pending(kinds.eventLogs, before.eventLogs, date)|]
                 + [|Pending(kinds.history, before.history, date)|]
                 + [|Pending(kinds.checkpoints, before.checkpoints, date)|]
                 + [|Chosen(before.changes, kinds.wantedChanges)|]
    ensures !ok ==> FailureRecorded(all, service.store.row)
  {
    counted := counts;
    ghost var n := |Chosen(before.webHooks, kinds.wantedWebHooks)|;
    ok := ResaveStage(kinds.webHooks, service, ids[2], stores.webHooks, kinds.wantedWebHooks, saves.webHooks, date, all, counts);
    if ok {
      ok, counted := FromEventLogs(kinds, stores, saves, service, ids, date, before, all, counts + [n]);
    }
  }

  /** `PerformSettingClientMigration` and what follows. */
  method AllStages<V(!new), W(!new)>(kinds: Kinds<V, W>, stores: Stores, saves: Saves, service: Rotation.Service, ids: seq<string>, date: int,
                                     ghost before: Data, ghost all: seq<State.Stage>, ghost counts: seq<int>)
    returns (ok: bool, ghost counted: seq<int>)
    requires Usable(kinds) && Ready(service, all, ids, counts, 0)
    requires stores.clients.clock >= date && stores.webHooks.clock >= date && stores.eventLogs.clock >= date
    requires stores.history.clock >= date && stores.checkpoints.clock >= date && stores.changes.clock >= date
    requires before.clients == stores.clients.rows && before.webHooks == stores.webHooks.rows && before.eventLogs == stores.eventLogs.rows
    requires before.history == stores.history.rows && before.checkpoints == stores.checkpoints.rows && before.changes == stores.changes.rows
    modifies service`lastUpdateAt, service`lastUpdateRecords, service.store,
             stores.clients, stores.webHooks, stores.eventLogs, stores.history, stores.checkpoints, stores.changes
    ensures ok <==>
      (&& Resavable(kinds.clients, before.clients, kinds.wantedClients, saves.clients)
       && Resavable(kinds.webHooks, before.webHooks, kinds.wantedWebHooks, saves.webHooks)
       && AllOpen(kinds.eventLogs, before.eventLogs, date)
       && AllOpen(kinds.history, before.history, date)
       && AllOpen(kinds.checkpoints, before.checkpoints, date)
       && Resavable(kinds.changes, before.changes, kinds.wantedChanges, saves.changes))
    ensures StoreAfter(kinds.clients, date, Chosen(before.clients, kinds.wantedClients), before.clients, stores.clients.rows, ok)
    ensures StoreAfter(kinds.webHooks, date, Chosen(before.webHooks, kinds.wantedWebHooks), before.webHooks, stores.webHooks.rows, ok)
    ensures StoreAfter(kinds.eventLogs, date, Pending(kinds.eventLogs, before.eventLogs, date), before.eventLogs, stores.eventLogs.rows, ok)
    ensures StoreAfter(kinds.history, date, Pending(kinds.history, before.history, date), before.history, stores.history.rows, ok)
    ensures StoreAfter(kinds.checkpoints, date, Pending(kinds.checkpoints, before.checkpoints, date), before.checkpoints, stores.checkpoints.rows, ok)
    ensures StoreAfter(kinds.changes, date, Chosen(before.changes, kinds.wantedChanges), before.changes, stores.changes.rows, ok)
    ensures ok ==> CompletionRecorded(all, service.store.row, counted)
    ensures ok ==>
      counted == counts + [|Chosen(before.clients, kinds.wantedClients)|]
                 + [|Chosen(before.clients, kinds.wantedClients)|]
                 + [|Chosen(before.webHooks, kinds.wantedWebHooks)|]
                 + [|Pending(kinds.eventLogs, before.eventLogs, date)|]
                 + [|Pending(kinds.history, before.history, date)|]
                 + [|Pending(kinds.checkpoints, before.checkpoints, date)|]
                 + [|Chosen(before.changes, kinds.wantedChanges)|]
    ensures !ok ==> FailureRecorded(all, service.store.row)
  {
    counted := counts;
    ghost var n := |Chosen(before.clients, kinds.wantedClients)|;
    ok := PreparedResaveStages(kinds.clients, service, ids[0], ids[1], stores.clients,
                               kinds.wantedClients, saves.clients, date, all, counts);
    if ok {
      ok, counted := FromWebHooks(kinds, stores, saves, service, ids, date, before, all, counts + [n] + [n]);
    }
  }

  // ----- the whole migration

  /** Everything the migration has to read can be read, and the database takes every save. */
  ghost predicate CanMigrate<V, W>(kinds: Kinds<V, W>, saves: Saves, date: int, data: Data) {
    && Resavable(kinds.clients, data.clients, kinds.wantedClients, saves.clients)
    && Resavable(kinds.webHooks, data.webHooks, kinds.wantedWebHooks, saves.webHooks)
    && AllOpen(kinds.eventLogs, data.eventLogs, date)
    && AllOpen(kinds.history, data.history, date)
    && AllOpen(kinds.checkpoints, data.checkpoints, date)
    && Resavable(kinds.changes, data.changes, kinds.wantedChanges, saves.changes)
  }

  /** How many records each of the seven stages handles. */
  ghost function RecordCounts<V, W>(kinds: Kinds<V, W>, date: int, data: Data): seq<int> {
    [|Chosen(data.clients, kinds.wantedClients)|,
     |Chosen(data.clients, kinds.wantedClients)|,
     |Chosen(data.webHooks, kinds.wantedWebHooks)|,
     |Pending(kinds.eventLogs, data.eventLogs, date)|,
     |Pending(kinds.history, data.history, date)|,
     |Pending(kinds.checkpoints, data.checkpoints, date)|,
     |Chosen(data.changes, kinds.wantedChanges)|]
  }

  ghost predicate StoresAfter<V, W>(kinds: Kinds<V, W>, date: int, completed: bool, before: Data, after: Data) {
    && StoreAfter(kinds.clients, date, Chosen(before.clients, kinds.wantedClients), before.clients, after.clients, completed)
    && StoreAfter(kinds.webHooks, date, Chosen(before.webHooks, kinds.wantedWebHooks), before.webHooks, after.webHooks, completed)
    && StoreAfter(kinds.eventLogs, date, Pending(kinds.eventLogs, before.eventLogs, date), before.eventLogs, after.eventLogs, completed)
    && StoreAfter(kinds.history, date, Pending(kinds.history, before.history, date), before.history, after.history, completed)
    && StoreAfter(kinds.checkpoints, date, Pending(kinds.checkpoints, before.checkpoints, date), before.checkpoints, after.checkpoints, completed)
    && StoreAfter(kinds.changes, date, Chosen(before.changes, kinds.wantedChanges), before.changes, after.changes, completed)
  }

  /** No record has changed what it says; after a completed run all say it under the current secret
      alone too, except for clients the user has no access to. */
  ghost predicate DataAfter<V, W>(c: Cipher, s: Secrets, values: Json<V>, exports: Json<Export>, changeSets: Json<W>, hasAccess: string -> bool,
                                  date: int, completed: bool, before: Data, after: Data) {
    && ClientsKept(c, s, values, hasAccess, before.clients, after.clients)
    && WebHooksKept(c, s, before.webHooks, after.webHooks)
    && EventLogsKept(c, s, date, before.eventLogs, after.eventLogs)
    && HistoryKept(c, s, values, date, before.history, after.history)
    && CheckpointsKept(c, s, exports, date, before.checkpoints, after.checkpoints)
    && ChangesKept(c, s, changeSets, before.changes, after.changes)
    && (completed ==>
          && ClientsMigrated(c, s, values, hasAccess, before.clients, after.clients)
          && WebHooksMigrated(c, s, before.webHooks, after.webHooks)
          && EventLogsMigrated(c, s, date, before.eventLogs, after.eventLogs)
          && HistoryMigrated(c, s, values, date, before.history, after.history)
          && CheckpointsMigrated(c, s, exports, date, before.checkpoints, after.checkpoints)
          && ChangesMigrated(c, s, changeSets, before.changes, after.changes))
  }

  lemma StoresMean<V(!new), W(!new)>(c: Cipher, s: Secrets, values: Json<V>, exports: Json<Export>, changeSets: Json<W>, hasAccess: string -> bool,
                                     date: int, completed: bool, before: Data, after: Data)
    requires Lawful(c) && JsonLaw(values) && JsonLaw(exports) && JsonLaw(changeSets)
    requires StoresAfter(KindsOf(c, s, values, exports, changeSets, hasAccess), date, completed, before, after)
    ensures DataAfter(c, s, values, exports, changeSets, hasAccess, date, completed, before, after)
  {
    var kinds := KindsOf(c, s, values, exports, changeSets, hasAccess);
    ClientsAfter(c, s, values, hasAccess, kinds.wantedClients, date, before.clients, after.clients, completed);
    WebHooksAfter(c, s, kinds.wantedWebHooks, date, before.webHooks, after.webHooks, completed);
    EventLogsAfter(c, s, date, before.eventLogs, after.eventLogs, completed);
    HistoryAfter(c, s, values, date, before.history, after.history, completed);
    CheckpointsAfter(c, s, exports, date, before.checkpoints, after.checkpoints, completed);
    ChangesAfter(c, s, changeSets, kinds.wantedChanges, date, before.changes, after.changes, completed);
  }

  // ----- what stops it

  /** No record that the migration has to read is stuck. */
  ghost predicate NothingStuck<V, W>(c: Cipher, s: Secrets, values: Json<V>, exports: Json<Export>, changeSets: Json<W>, hasAccess: string -> bool,
                                     date: int, data: Data) {
    && ClientsFree(c, s, values, hasAccess, data.clients)
    && WebHooksFree(c, s, data.webHooks)
    && EventLogsFree(c, s, date, data.eventLogs)
    && HistoryFree(c, s, values, date, data.history)
    && CheckpointsFree(c, s, exports, date, data.checkpoints)
    && ChangesFree(c, s, changeSets, data.changes)
  }

  ghost predicate SavesSuffice(hasAccess: string -> bool, saves: Saves, data: Data) {
    && |Accessible(hasAccess, data.clients)| <= saves.clients
    && |data.webHooks| <= saves.webHooks && |data.changes| <= saves.changes
  }

  /** The migration completes exactly if no record it has to read is stuck and the database takes
      every save. */
  lemma CanMigrateExactlyIf<V(!new), W(!new)>(c: Cipher, s: Secrets, values: Json<V>, exports: Json<Export>, changeSets: Json<W>,
                                              hasAccess: string -> bool, saves: Saves, date: int, data: Data)
    requires Lawful(c)
    ensures CanMigrate(KindsOf(c, s, values, exports, changeSets, hasAccess), saves, date, data)
            <==> NothingStuck(c, s, values, exports, changeSets, hasAccess, date, data) && SavesSuffice(hasAccess, saves, data)
  {
    var kinds := KindsOf(c, s, values, exports, changeSets, hasAccess);
    ClientsOpen(c, s, values, hasAccess, kinds.wantedClients, data.clients);
    WebHooksOpen(c, s, kinds.wantedWebHooks, data.webHooks);
    EventLogsOpen(c, s, date, data.eventLogs);
    HistoryOpens(c, s, values, date, data.history);
    CheckpointsOpen(c, s, exports, date, data.checkpoints);
    ChangesOpen(c, s, changeSets, kinds.wantedChanges, data.changes);
  }

  /** Clients outside the filter neither stop a migration nor take part in it. */
  lemma FilteredClientStopsNothing<V(!new), W(!new)>(c: Cipher, s: Secrets, values: Json<V>, exports: Json<Export>, changeSets: Json<W>,
                                                     hasAccess: string -> bool, saves: Saves, date: int, data: Data, id: nat, client: ClientRow)
    requires Lawful(c) && id !in data.clients && !hasAccess(client.name)
    ensures CanMigrate(KindsOf(c, s, values, exports, changeSets, hasAccess), saves, date, data.(clients := data.clients[id := client]))
            <==> CanMigrate(KindsOf(c, s, values, exports, changeSets, hasAccess), saves, date, data)
  {
    var data' := data.(clients := data.clients[id := client]);
    CanMigrateExactlyIf(c, s, values, exports, changeSets, hasAccess, saves, date, data);
    CanMigrateExactlyIf(c, s, values, exports, changeSets, hasAccess, saves, date, data');
    FreeOfFiltered(c, s, values, hasAccess, data.clients, id, client);
  }

  lemma FreeOfFiltered<V>(c: Cipher, s: Secrets, json: Json<V>, hasAccess: string -> bool, clients: map<nat, ClientRow>, id: nat, client: ClientRow)
    requires id !in clients && !hasAccess(client.name)
    ensures Accessible(hasAccess, clients[id := client]) == Accessible(hasAccess, clients)
    ensures ClientsFree(c, s, json, hasAccess, clients[id := client]) <==> ClientsFree(c, s, json, hasAccess, clients)
  {
    var clients' := clients[id := client];
    assert forall k :: k in clients ==> clients'[k] == clients[k];
    if ClientsFree(c, s, json, hasAccess, clients') {
      forall k, i | k in clients && hasAccess(clients[k].name) && 0 <= i < |clients[k].valuesAsJson|
        ensures !Undecided(c, s, json, clients[k].valuesAsJson[i])
      {
        assert !Undecided(c, s, json, clients'[k].valuesAsJson[i]);
      }
    }
  }

  lemma NothingHappened<V, W>(kinds: Kinds<V, W>, date: int, data: Data)
    ensures StoresAfter(kinds, date, false, data, data)
  {
  }

  /** The `try` block of `PerformMigration` and its handler. */
  method TrackedRun<V(!new), W(!new)>(kinds: Kinds<V, W>, stores: Stores, saves: Saves, service: Rotation.Service, date: int,
                                      ghost all: seq<State.Stage>) returns (ok: bool)
    requires Usable(kinds) && ClocksPast(stores, date)
    requires Tracking(service, all) && StageIds(all) && AtStage(all, service.store.row.value, [])
    modifies service`lastUpdateAt, service`lastUpdateRecords, service.store,
             stores.clients, stores.webHooks, stores.eventLogs, stores.history, stores.checkpoints, stores.changes
    ensures ok <==> CanMigrate(kinds, saves, date, old(Contents(stores)))
    ensures StoresAfter(kinds, date, ok, old(Contents(stores)), Contents(stores))
    ensures ok ==> CompletionRecorded(all, service.store.row, RecordCounts(kinds, date, old(Contents(stores))))
    ensures !ok ==> FailureRecorded(all, service.store.row)
  {
    ghost var data := Contents(stores);
    ghost var counted;
    ok, counted := AllStages(kinds, stores, saves, service, STAGE_IDS, date, data, all, []);
    if ok {
      AddUp(|Chosen(data.clients, kinds.wantedClients)|, |Chosen(data.webHooks, kinds.wantedWebHooks)|,
            |Pending(kinds.eventLogs, data.eventLogs, date)|, |Pending(kinds.history, data.history, date)|,
            |Pending(kinds.checkpoints, data.checkpoints, date)|, |Chosen(data.changes, kinds.wantedChanges)|);
    }
  }

  lemma AddUp(a: int, b: int, c: int, d: int, e: int, f: int)
    ensures [] + [a] + [a] + [b] + [c] + [d] + [e] + [f] == [a, a, b, c, d, e, f]
  {
  }

  lemma CreatedIds()
    ensures StageIds(State.CreateProgress())
  {
    State.CreatedStages();
  }

  method CreateStages() returns (stages: seq<State.Stage>)
    ensures StageIds(stages) && stages == State.CreateProgress()
  {
    CreatedIds();
    stages := State.CreateProgress();
  }

  /** Without a previous secret event logs are the only work, and none of them can stop it. */
  method MigrateLogsOnly(c: Cipher, s: Secrets, eventLogs: Repository<EventLogRow>, secretChangeDate: int) returns (end: End)
    requires Lawful(c) && !s.HasPrevious() && eventLogs.clock >= secretChangeDate
    modifies eventLogs
    ensures end == LogsOnly
    ensures EventLogsMigrated(c, s, secretChangeDate, old(eventLogs.rows), eventLogs.rows)
  {
    var outcome := PerformEventLogMigration(c, s, eventLogs, secretChangeDate);
    assert !outcome.ApplicationError?;
    end := LogsOnly;
  }

  /** The part that needs a previous secret: it starts a run, if it may, and performs it. */
  method StartAndRun<V(!new), W(!new)>(kinds: Kinds<V, W>, stores: Stores, saves: Saves, service: Rotation.Service, secretChangeDate: int,
                                       hosts: seq<ApiHost>) returns (end: End)
    requires Usable(kinds) && ClocksPast(stores, secretChangeDate)
    modifies service, service.store,
             stores.clients, stores.webHooks, stores.eventLogs, stores.history, stores.checkpoints, stores.changes
    ensures !end.LogsOnly?
    ensures end.HostsDisagree? <==> Mismatched(hosts)
    ensures end.Refused? <==> !Mismatched(hosts) && !Rotation.StartOutcome(service.secrets, old(service.store.row)).Fine?
    ensures end.Refused? ==> end.reason == Rotation.StartOutcome(service.secrets, old(service.store.row))
    ensures end.HostsDisagree? || end.Refused? ==> Contents(stores) == old(Contents(stores)) && service.store.row == old(service.store.row)
    ensures end.Migrated? || end.Broken? ==> (end.Migrated? <==> CanMigrate(kinds, saves, secretChangeDate, old(Contents(stores))))
    ensures StoresAfter(kinds, secretChangeDate, end.Migrated?, old(Contents(stores)), Contents(stores))
    ensures end.Migrated? ==>
      CompletionRecorded(State.CreateProgress(), service.store.row, RecordCounts(kinds, secretChangeDate, old(Contents(stores))))
    ensures end.Broken? ==> FailureRecorded(State.CreateProgress(), service.store.row)
  {
    NothingHappened(kinds, secretChangeDate, Contents(stores));
    var agree := ValidateActiveApiHosts(hosts);
    if !agree {
      return HostsDisagree;
    }
    var outcome, snapshot := service.MarkMigrationStarted(secretChangeDate);
    if !outcome.Fine? {
      return Refused(outcome);
    }
    // The source returns here if the snapshot says the migration is completed; it never does.
    assert !snapshot.status.MigrationCompleted?;
    var stages := CreateStages();
    Initialize(service, stages);
    var ok := TrackedRun(kinds, stores, saves, service, secretChangeDate, stages);
    return if ok then Migrated else Broken;
  }

  /** The whole migration. It either does nothing and says why, or completes exactly when every
      record it has to read can be read and every save succeeds. Then no stamped record is pending,
      every record says under the current secret alone what it said before, except for clients the
      user has no access to, and the row has all stages completed with the numbers of records
      handled. Otherwise the row is marked as failed, and every record still says what it said. */
  method PerformMigration<V(!new), W(!new)>(c: Cipher, service: Rotation.Service, values: Json<V>, exports: Json<Export>, changeSets: Json<W>,
                                            hasAccess: string -> bool, secretChangeDate: int, hosts: seq<ApiHost>, stores: Stores, saves: Saves)
    returns (end: End)
    requires Lawful(c) && JsonLaw(values) && JsonLaw(exports) && JsonLaw(changeSets) && ClocksPast(stores, secretChangeDate)
    modifies service, service.store,
             stores.clients, stores.webHooks, stores.eventLogs, stores.history, stores.checkpoints, stores.changes
    ensures IsNullOrBlank(service.secrets.previous) ==>
      && end.LogsOnly?
      && EventLogsMigrated(c, service.secrets, secretChangeDate, old(stores.eventLogs.rows), stores.eventLogs.rows)
      && Contents(stores) == old(Contents(stores)).(eventLogs := stores.eventLogs.rows) && service.store.row == old(service.store.row)
    ensures !IsNullOrBlank(service.secrets.previous) ==>
      && !end.LogsOnly?
      && (end.HostsDisagree? <==> Mismatched(hosts))
      && (end.Refused? <==> !Mismatched(hosts) && !Rotation.StartOutcome(service.secrets, old(service.store.row)).Fine?)
      && (end.Refused? ==> end.reason == Rotation.StartOutcome(service.secrets, old(service.store.row)))
      && DataAfter(c, service.secrets, values, exports, changeSets, hasAccess, secretChangeDate, end.Migrated?,
                   old(Contents(stores)), Contents(stores))
    ensures end.HostsDisagree? || end.Refused? ==> Contents(stores) == old(Contents(stores)) && service.store.row == old(service.store.row)
    ensures end.Migrated? || end.Broken? ==>
      (end.Migrated? <==>
       CanMigrate(KindsOf(c, service.secrets, values, exports, changeSets, hasAccess), saves, secretChangeDate, old(Contents(stores))))
    ensures end.Migrated? ==>
      CompletionRecorded(State.CreateProgress(), service.store.row,
        RecordCounts(KindsOf(c, service.secrets, values, exports, changeSets, hasAccess), secretChangeDate, old(Contents(stores))))
    ensures end.Broken? ==> FailureRecorded(State.CreateProgress(), service.store.row)
  {
    if IsNullOrBlank(service.secrets.previous) {
      end := MigrateLogsOnly(c, service.secrets, stores.eventLogs, secretChangeDate);
      return;
    }
    var kinds := KindsOf(c, service.secrets, values, exports, changeSets, hasAccess);
    KindsAreUsable(c, service.secrets, values, exports, changeSets, hasAccess);
    ghost var before := Contents(stores);
    end := StartAndRun(kinds, stores, saves, service, secretChangeDate, hosts);
    StoresMean(c, service.secrets, values, exports, changeSets, hasAccess, secretChangeDate, end.Migrated?, before, Contents(stores));
  }

  /** A migration that may start and meets nothing stuck completes, with a client outside the filter
      as with any other; a value of that client under the previous secret, which read before, is
      unreadable once that secret is taken out. */
  method MigrateWithFilteredClient<V(!new), W(!new)>(c: Cipher, service: Rotation.Service, values: Json<V>, exports: Json<Export>,
                                                     changeSets: Json<W>, hasAccess: string -> bool, secretChangeDate: int, hosts: seq<ApiHost>,
                                                     stores: Stores, saves: Saves, ghost id: nat, ghost value: V) returns (end: End)
    requires Lawful(c) && JsonLaw(values) && JsonLaw(exports) && JsonLaw(changeSets) && ClocksPast(stores, secretChangeDate)
    requires !Mismatched(hosts) && Rotation.StartOutcome(service.secrets, service.store.row).Fine?
    requires NothingStuck(c, service.secrets, values, exports, changeSets, hasAccess, secretChangeDate, Contents(stores))
    requires SavesSuffice(hasAccess, saves, Contents(stores))
    requires id in stores.clients.rows && !hasAccess(stores.clients.rows[id].name)
    requires service.secrets.HasPrevious()
    requires stores.clients.rows[id].valuesAsJson == [Some(Seal(c, service.secrets.previous.value, values.render(value)))]
    modifies service, service.store,
             stores.clients, stores.webHooks, stores.eventLogs, stores.history, stores.checkpoints, stores.changes
    ensures end.Migrated?
    ensures id in stores.clients.rows && ReadClient(c, service.secrets, values, old(stores.clients.rows)[id]) == [Reads(value)]
    ensures ReadClient(c, Alone(service.secrets), values, stores.clients.rows[id]) == [Unreadable]
  {
    ghost var before := Contents(stores);
    CanMigrateExactlyIf(c, service.secrets, values, exports, changeSets, hasAccess, saves, secretChangeDate, before);
    end := PerformMigration(c, service, values, exports, changeSets, hasAccess, secretChangeDate, hosts, stores, saves);
    FilteredClientIsLost(c, service.secrets, values, hasAccess, before.clients, stores.clients.rows, id, value);
  }
}
