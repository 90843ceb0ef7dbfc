/**
 The stages of the encryption migration, tracked in the rotation row
 (src/api/Fig.Api/Services/EncryptionMigrationService.cs:103-571): stages that work in batches
 through what is pending, and stages that load everything and save it back.
 */
module TrackedStages {
  import opened Text
  import opened ReEncryption
  import State = RotationState
  import Runs = RotationRuns
  import Rotation = RotationService

  // ----- tracking the stages

  /** The first |counts| stages have these record counts. */
  ghost predicate Counts(stages: seq<State.Stage>, counts: seq<int>) {
    |counts| <= |stages| && forall i :: 0 <= i < |counts| ==> stages[i].processed == counts[i]
  }

  /** Before stage |counts|, or after the last: the stages before it are completed, with these
      counts. */
  ghost predicate AtStage(all: seq<State.Stage>, row: State.Row, counts: seq<int>) {
    && Runs.RowInv(all, row) && |counts| <= |all|
    && Runs.BetweenInv(all, row, |counts|)
    && Counts(State.ProgressOf(row).stages, counts)
  }

  ghost predicate InStage(all: seq<State.Stage>, row: State.Row, counts: seq<int>) {
    && Runs.RowInv(all, row) && |counts| < |all|
    && Runs.InsideInv(all, row, |counts|)
    && Counts(State.ProgressOf(row).stages, counts)
  }

  /** The service has its rotation configured, and its row satisfies what follows. */
  ghost predicate Tracking(service: Rotation.Service, all: seq<State.Stage>)
    reads service, service.store
  {
    Rotation.Configuration(service.secrets).Fine? && State.WellOrdered(all) && service.store.row.Some?
  }

  lemma MarkKeepsCounts(all: seq<State.Stage>, row: State.Row, i: nat, status: State.StageStatus, processed: int, total: Option<int>,
                        row': State.Row, counts: seq<int>)
    requires State.WellOrdered(all) && Runs.RowInv(all, row) && i < |all| && |counts| <= i
    requires State.StageMarked(row, all[i].id, status, processed, total) == Some(row')
    requires Counts(State.ProgressOf(row).stages, counts)
    ensures Counts(State.ProgressOf(row').stages, counts)
    ensures State.ProgressOf(row').stages[i].processed == processed
  {
    Runs.MarkedRow(all, row, i, status, processed, total, row');
  }

  /** A stage that exists is always marked. */
  lemma KnownStage(all: seq<State.Stage>, row: State.Row, i: nat, status: State.StageStatus, processed: int, total: Option<int>)
    requires State.WellOrdered(all) && Runs.RowInv(all, row) && i < |all|
    ensures State.StageMarked(row, all[i].id, status, processed, total).Some?
  {
    Runs.FindSame(all, row.progress.value.stages, i);
  }

  lemma Begins(all: seq<State.Stage>, row: State.Row, counts: seq<int>, total: Option<int>, row': State.Row)
    requires State.WellOrdered(all) && AtStage(all, row, counts) && |counts| < |all|
    requires State.StageMarked(row, all[|counts|].id, State.InProgress, 0, total) == Some(row')
    ensures InStage(all, row', counts)
  {
    Runs.MarkKeepsInside(all, row, |counts|, 0, total, row');
    MarkKeepsCounts(all, row, |counts|, State.InProgress, 0, total, row', counts);
  }

  lemma Ends(all: seq<State.Stage>, row: State.Row, counts: seq<int>, count: nat, total: Option<int>, row': State.Row)
    requires State.WellOrdered(all) && InStage(all, row, counts)
    requires State.StageMarked(row, all[|counts|].id, State.Completed, count, total) == Some(row')
    ensures AtStage(all, row', counts + [count])
  {
    Runs.CompleteMovesOn(all, row, |counts|, count, total, row');
    MarkKeepsCounts(all, row, |counts|, State.Completed, count, total, row', counts);
    CountsAppend(State.ProgressOf(row').stages, counts, count);
  }

  lemma CountsAppend(stages: seq<State.Stage>, counts: seq<int>, count: int)
    requires Counts(stages, counts) && |counts| < |stages| && stages[|counts|].processed == count
    ensures Counts(stages, counts + [count])
  {
  }

  lemma Breaks(all: seq<State.Stage>, row: State.Row, counts: seq<int>, error: string)
    requires State.WellOrdered(all) && InStage(all, row, counts)
    ensures Runs.RowInv(all, State.Broken(row, error)) && Runs.BrokeInv(State.Broken(row, error))
  {
    Runs.FailBreaks(all, Runs.Run(Runs.Inside(|counts|), row, None), error);
  }

  method BeginStage(service: Rotation.Service, id: string, total: Option<int>, ghost all: seq<State.Stage>, ghost counts: seq<int>)
    requires Tracking(service, all) && AtStage(all, service.store.row.value, counts) && |counts| < |all| && id == all[|counts|].id
    modifies service.store
    ensures Tracking(service, all) && InStage(all, service.store.row.value, counts)
  {
    ghost var row := service.store.row.value;
    KnownStage(all, row, |counts|, State.InProgress, 0, total);
    var _ := service.MarkMigrationStageStarted(id, total);
    Begins(all, row, counts, total, service.store.row.value);
  }

  method EndStage(service: Rotation.Service, id: string, count: nat, total: Option<int>, ghost all: seq<State.Stage>, ghost counts: seq<int>)
    requires Tracking(service, all) && InStage(all, service.store.row.value, counts) && id == all[|counts|].id
    modifies service.store
    ensures Tracking(service, all) && AtStage(all, service.store.row.value, counts + [count])
  {
    ghost var row := service.store.row.value;
    KnownStage(all, row, |counts|, State.Completed, count, total);
    var _ := service.MarkMigrationStageCompleted(id, count, total);
    Ends(all, row, counts, count, total, service.store.row.value);
  }

  /** The row of a failed run. */
  ghost predicate FailureRecorded(all: seq<State.Stage>, row: Option<State.Row>) {
    row.Some? && Runs.RowInv(all, row.value) && Runs.BrokeInv(row.value)
  }

  method Abort(service: Rotation.Service, error: string, ghost all: seq<State.Stage>, ghost counts: seq<int>)
    requires Tracking(service, all) && InStage(all, service.store.row.value, counts)
    modifies service.store
    ensures FailureRecorded(all, service.store.row)
  {
    Breaks(all, service.store.row.value, counts, error);
    var _ := service.MarkMigrationFailed(error);
  }

  // ----- a stage that works in batches

  /** It completes exactly if every pending record opens; its count is then their number. */
  method BatchStage<Stored(!new), Loaded(!new)>(kind: Kind<Stored, Loaded>, service: Rotation.Service, id: string, repository: Repository<Stored>,
                                                limit: nat, date: int, ghost all: seq<State.Stage>, ghost counts: seq<int>) returns (ok: bool)
    requires Restamps(kind) && limit > 0 && repository.clock >= date
    requires Tracking(service, all) && AtStage(all, service.store.row.value, counts) && |counts| < |all| && id == all[|counts|].id
    modifies service.store, repository
    ensures ok <==> AllOpen(kind, old(repository.rows), date)
    ensures StoreAfter(kind, date, Pending(kind, old(repository.rows), date), old(repository.rows), repository.rows, ok)
    ensures ok ==> Tracking(service, all)
    ensures ok ==> AtStage(all, service.store.row.value, counts + [|Pending(kind, old(repository.rows), date)|])
    ensures !ok ==> FailureRecorded(all, service.store.row)
  {
    ghost var before := repository.rows;
    BeginStage(service, id, None, all, counts);
    ghost var done;
    var outcome;
    outcome, done := PerformBatches(kind, repository, date, limit);
    ok := outcome.Completed?;
    ProgressedIsAfter(kind, date, before, repository.rows, done, Pending(kind, before, date), ok);
    if ok {
      EndStage(service, id, outcome.total, None, all, counts);
    } else {
      Abort(service, id, all, counts);
    }
  }

  // ----- a stage that loads everything and saves it back

  /** A report on the running stage, forced past the throttle. */
  method Report(service: Rotation.Service, id: string, processed: nat, total: Option<int>, now: int,
                ghost all: seq<State.Stage>, ghost counts: seq<int>)
    requires Tracking(service, all) && InStage(all, service.store.row.value, counts) && id == all[|counts|].id
    modifies service`lastUpdateAt, service`lastUpdateRecords, service.store
    ensures Tracking(service, all) && InStage(all, service.store.row.value, counts)
  {
    ghost var row := service.store.row.value;
    KnownStage(all, row, |counts|, State.InProgress, processed, total);
    var _, _ := service.MarkMigrationProgress(id, processed, total, true, now);
    Runs.MarkKeepsInside(all, row, |counts|, processed, total, service.store.row.value);
    MarkKeepsCounts(all, row, |counts|, State.InProgress, processed, total, service.store.row.value, counts);
  }

  /** The batch holds the decrypted records of `before`. */
  ghost predicate Decrypted<Stored, Loaded>(kind: Kind<Stored, Loaded>, before: map<nat, Stored>, batch: seq<Entity<Loaded>>, from: nat)
    reads batch
  {
    forall i :: from <= i < |batch| ==> batch[i].id in before && Prepared(kind, before[batch[i].id]) == Some(batch[i].data)
  }

  /** The first n records of the batch have been saved, and nothing else. */
  ghost predicate SavedFirst<Stored, Loaded>(kind: Kind<Stored, Loaded>, date: int, before: map<nat, Stored>, rows: map<nat, Stored>,
                                             batch: seq<Entity<Loaded>>, n: nat)
    requires n <= |batch|
  {
    Progressed(kind, date, before, rows, Ids(batch[..n]))
  }

  lemma SavedNext<Stored, Loaded>(kind: Kind<Stored, Loaded>, date: int, before: map<nat, Stored>, rows: map<nat, Stored>, rows': map<nat, Stored>,
                                  batch: seq<Entity<Loaded>>, n: nat)
    requires n < |batch| && SavedFirst(kind, date, before, rows, batch, n)
    requires batch[n].id in before && rows'.Keys == rows.Keys && Migrated(kind, date, before[batch[n].id], rows'[batch[n].id])
    requires forall id :: id in rows && id != batch[n].id ==> rows'[id] == rows[id]
    ensures SavedFirst(kind, date, before, rows', batch, n + 1)
  {
    assert batch[..n + 1] == batch[..n] + [batch[n]];
    IdsSnoc(batch[..n], batch[n]);
  }

  lemma PrefixIds<Loaded>(batch: seq<Entity<Loaded>>, n: nat)
    requires n <= |batch|
    ensures Ids(batch[..n]) <= Ids(batch)
  {
    forall id | id in Ids(batch[..n]) ensures id in Ids(batch) {
      var i :| 0 <= i < n && batch[..n][i].id == id;
      assert batch[i].id == id;
    }
  }

  /** One save: the record is stored encrypted anew. */
  method SaveOne<Stored(!new), Loaded(!new)>(kind: Kind<Stored, Loaded>, repository: Repository<Stored>, batch: seq<Entity<Loaded>>, n: nat,
                                             date: int, ghost before: map<nat, Stored>)
    requires repository.clock >= date && Distinct(batch) && n < |batch|
    requires Decrypted(kind, before, batch, n) && SavedFirst(kind, date, before, repository.rows, batch, n)
    modifies repository, batch[n]
    ensures repository.clock >= date
    ensures Decrypted(kind, before, batch, n + 1) && SavedFirst(kind, date, before, repository.rows, batch, n + 1)
  {
    ghost var rows := repository.rows;
    repository.Update(kind, [batch[n]], date);
    assert [batch[n]][0] == batch[n];
    SavedNext(kind, date, before, rows, repository.rows, batch, n);
  }

  /** The loop over the loaded records, up to the save that the database refuses, if it does. */
  method SaveAll<Stored(!new), Loaded(!new)>(kind: Kind<Stored, Loaded>, service: Rotation.Service, id: string, repository: Repository<Stored>,
                                             batch: seq<Entity<Loaded>>, saves: nat, date: int, ghost before: map<nat, Stored>,
                                             ghost all: seq<State.Stage>, ghost counts: seq<int>) returns (ok: bool)
    requires repository.clock >= date && repository.rows == before && Distinct(batch) && Decrypted(kind, before, batch, 0)
    requires Tracking(service, all) && InStage(all, service.store.row.value, counts) && id == all[|counts|].id
    modifies service`lastUpdateAt, service`lastUpdateRecords, service.store, repository, batch
    ensures ok <==> |batch| <= saves
    ensures StoreAfter(kind, date, Ids(batch), before, repository.rows, ok)
    ensures Tracking(service, all) && InStage(all, service.store.row.value, counts)
  {
    assert batch[..0] == [];
    Report(service, id, 0, Some(|batch|), repository.clock, all, counts);
    for i := 0 to |batch|
      invariant i <= saves && repository.clock >= date
      invariant Tracking(service, all) && InStage(all, service.store.row.value, counts)
      invariant Decrypted(kind, before, batch, i) && SavedFirst(kind, date, before, repository.rows, batch, i)
    {
      Report(service, id, i, Some(|batch|), repository.clock, all, counts);
      if i == saves {
        PrefixIds(batch, i);
        ProgressedIsAfter(kind, date, before, repository.rows, Ids(batch[..i]), Ids(batch), false);
        return false;
      }
      SaveOne(kind, repository, batch, i, date, before);
    }
    assert batch[..|batch|] == batch;
    ProgressedIsAfter(kind, date, before, repository.rows, Ids(batch), Ids(batch), true);
    return true;
  }

  /** The rest of a stage after its records were loaded. */
  method SaveStage<Stored(!new), Loaded(!new)>(kind: Kind<Stored, Loaded>, service: Rotation.Service, id: string, repository: Repository<Stored>,
                                               batch: seq<Entity<Loaded>>, saves: nat, date: int,
                                               ghost all: seq<State.Stage>, ghost counts: seq<int>) returns (ok: bool)
    requires repository.clock >= date && Distinct(batch) && Decrypted(kind, repository.rows, batch, 0)
    requires Tracking(service, all) && InStage(all, service.store.row.value, counts) && id == all[|counts|].id
    modifies service`lastUpdateAt, service`lastUpdateRecords, service.store, repository, batch
    ensures ok <==> |batch| <= saves
    ensures StoreAfter(kind, date, Ids(batch), old(repository.rows), repository.rows, ok)
    ensures ok ==> Tracking(service, all) && AtStage(all, service.store.row.value, counts + [|batch|])
    ensures !ok ==> FailureRecorded(all, service.store.row)
  {
    ok := SaveAll(kind, service, id, repository, batch, saves, date, repository.rows, all, counts);
    if ok {
      EndStage(service, id, |batch|, Some(|batch|), all, counts);
    } else {
      Abort(service, id, all, counts);
    }
  }

  /** Loads the wanted records and saves them back. It completes exactly if each of them can be
      decrypted and the database takes every save; nothing is saved unless all were decrypted. */
  method ResaveStage<Stored(!new), Loaded(!new)>(kind: Kind<Stored, Loaded>, service: Rotation.Service, id: string, repository: Repository<Stored>,
                                                 wanted: Stored -> bool, saves: nat, date: int,
                                                 ghost all: seq<State.Stage>, ghost counts: seq<int>) returns (ok: bool)
    requires NeedsNoPreparation(kind) && repository.clock >= date
    requires Tracking(service, all) && AtStage(all, service.store.row.value, counts) && |counts| < |all| && id == all[|counts|].id
    modifies service`lastUpdateAt, service`lastUpdateRecords, service.store, repository
    ensures ok <==> Resavable(kind, old(repository.rows), wanted, saves)
    ensures StoreAfter(kind, date, Chosen(old(repository.rows), wanted), old(repository.rows), repository.rows, ok)
    ensures ok ==> Tracking(service, all)
    ensures ok ==> AtStage(all, service.store.row.value, counts + [|Chosen(old(repository.rows), wanted)|])
    ensures !ok ==> FailureRecorded(all, service.store.row)
  {
    BeginStage(service, id, None, all, counts);
    var batch;
    ok, batch := LoadDecrypted(kind, repository, wanted);
    IdsSize(batch);
    if !ok {
      Abort(service, id, all, counts);
      return;
    }
    ok := SaveStage(kind, service, id, repository, batch, saves, date, all, counts);
  }

  ghost predicate Resavable<Stored, Loaded>(kind: Kind<Stored, Loaded>, rows: map<nat, Stored>, wanted: Stored -> bool, saves: nat) {
    ChosenOpen(kind, rows, Chosen(rows, wanted)) && |Chosen(rows, wanted)| <= saves
  }

  method LoadStage<Stored(!new), Loaded(!new)>(kind: Kind<Stored, Loaded>, service: Rotation.Service, id: string, repository: Repository<Stored>,
                                               wanted: Stored -> bool, ghost all: seq<State.Stage>, ghost counts: seq<int>)
    returns (ok: bool, batch: seq<Entity<Loaded>>)
    requires NeedsNoPreparation(kind)
    requires Tracking(service, all) && AtStage(all, service.store.row.value, counts) && |counts| < |all| && id == all[|counts|].id
    modifies service.store
    ensures fresh(batch) && Distinct(batch) && Ids(batch) == Chosen(repository.rows, wanted) && |batch| == |Ids(batch)|
    ensures ok <==> ChosenOpen(kind, repository.rows, Ids(batch))
    ensures ok ==> Decrypted(kind, repository.rows, batch, 0)
    ensures ok ==> Tracking(service, all) && AtStage(all, service.store.row.value, counts + [|batch|])
    ensures !ok ==> FailureRecorded(all, service.store.row)
  {
    BeginStage(service, id, None, all, counts);
    ok, batch := LoadDecrypted(kind, repository, wanted);
    IdsSize(batch);
    if ok {
      EndStage(service, id, |batch|, Some(|batch|), all, counts);
    } else {
      Abort(service, id, all, counts);
    }
  }

  /** The same in two stages, of which the first only loads: setting clients. */
  method PreparedResaveStages<Stored(!new), Loaded(!new)>(kind: Kind<Stored, Loaded>, service: Rotation.Service, preparation: string, id: string,
                                                          repository: Repository<Stored>, wanted: Stored -> bool, saves: nat, date: int,
                                                          ghost all: seq<State.Stage>, ghost counts: seq<int>) returns (ok: bool)
    requires NeedsNoPreparation(kind) && repository.clock >= date
    requires Tracking(service, all) && AtStage(all, service.store.row.value, counts) && |counts| + 1 < |all|
    requires preparation == all[|counts|].id && id == all[|counts| + 1].id
    modifies service`lastUpdateAt, service`lastUpdateRecords, service.store, repository
    ensures ok <==> Resavable(kind, old(repository.rows), wanted, saves)
    ensures StoreAfter(kind, date, Chosen(old(repository.rows), wanted), old(repository.rows), repository.rows, ok)
    ensures ok ==> Tracking(service, all)
    ensures ok ==> AtStage(all, service.store.row.value,
                           counts + [|Chosen(old(repository.rows), wanted)|] + [|Chosen(old(repository.rows), wanted)|])
    ensures !ok ==> FailureRecorded(all, service.store.row)
  {
    var batch;
    ok, batch := LoadStage(kind, service, preparation, repository, wanted, all, counts);
    if !ok {
      return;
    }
    BeginStage(service, id, Some(|batch|), all, counts + [|batch|]);
    ok := SaveStage(kind, service, id, repository, batch, saves, date, all, counts + [|batch|]);
  }

  // ----- before the first stage and after the last

  /** `InitializeMigrationProgress` on a started row. */
  method Initialize(service: Rotation.Service, stages: seq<State.Stage>)
    requires Tracking(service, stages) && service.store.row.value == State.Started(service.host)
    modifies service.store
    ensures Tracking(service, stages) && AtStage(stages, service.store.row.value, [])
  {
    Runs.BegunInv(stages, service.host);
    var _ := service.InitializeMigrationProgress(stages);
  }

  method Finish(service: Rotation.Service, ghost all: seq<State.Stage>, ghost counts: seq<int>)
    requires Tracking(service, all) && |counts| == |all| && AtStage(all, service.store.row.value, counts)
    modifies service.store
    ensures service.store.row.Some? && Runs.RowInv(all, service.store.row.value) && Runs.DoneInv(all, service.store.row.value)
    ensures Counts(State.ProgressOf(service.store.row.value).stages, counts)
  {
    Runs.FinishEnds(all, service.store.row.value);
    Runs.NoneRunning(all, service.store.row.value);
    var _ := service.MarkMigrationCompleted();
  }

  /** The row of a completed run: all stages completed, with these record counts, and the total
      is their sum. */
  ghost predicate CompletionRecorded(all: seq<State.Stage>, row: Option<State.Row>, counts: seq<int>) {
    && row.Some? && Runs.RowInv(all, row.value) && Runs.DoneInv(all, row.value)
    && Counts(State.ProgressOf(row.value).stages, counts)
  }
}
