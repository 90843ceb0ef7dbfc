/**
 The service that keeps the rotation row, the live progress and the throttle of progress
 reports (src/api/Fig.Api/Services/ApiSecretRotationStateService.cs).
 */
module RotationService {
  import opened Text
  import opened RotationState
  import Encryption
  import Linq

  const MINIMUM_UPDATE_MS := 500
  const MINIMUM_UPDATE_RECORDS := 5

  datatype Outcome =
    | Fine
    | NoSecret                     // the current secret is not configured
    | NotConfigured                // there is no other, previous secret
    | AlreadyRunning(host: string)
    | NoState
    | UnknownStage

  /** What a reader of the state is told. */
  datatype Snapshot =
    | NotRequired
    | Snapshot(status: Status, keyOrder: KeyOrder, host: Option<string>, lastCompletedStage: Option<string>,
               processedRecords: int, lastError: Option<string>, progress: Progress)

  /** The row in the database, and the entry of the process-wide map of live progress. Both are
      shared by all services of a process. */
  class Store {
    var row: Option<Row>
    var live: Option<Live>

    constructor ()
      ensures row == None && live == None
    {
      row, live := None, None;
    }
  }

  /** `GetConfiguredSecrets`, as the outcome of an operation that needs a rotation. */
  function Configuration(secrets: Encryption.Secrets): Outcome {
    if IsBlank(secrets.current) then NoSecret
    else if IsNullOrBlank(secrets.previous) || secrets.previous == Some(secrets.current) then NotConfigured
    else Fine
  }

  function RequiredState(secrets: Encryption.Secrets, row: Option<Row>): Outcome {
    if !Configuration(secrets).Fine? then Configuration(secrets) else if row.None? then NoState else Fine
  }

  function StartOutcome(secrets: Encryption.Secrets, row: Option<Row>): Outcome {
    if !Configuration(secrets).Fine? then Configuration(secrets)
    else if row.Some? && row.value.status == MigrationInProgress then AlreadyRunning(row.value.host)
    else Fine
  }

  /** A current secret, and a previous one that differs from it. */
  ghost predicate IsConfigured(secrets: Encryption.Secrets) {
    && !IsBlank(secrets.current) && secrets.previous.Some?
    && !IsBlank(secrets.previous.value) && secrets.previous.value != secrets.current
  }

  /** An operation on a stage needs a rotation, a row, and the stage in it; then it is recorded. */
  ghost predicate IsRecorded(secrets: Encryption.Secrets, row: Option<Row>, row': Option<Row>, fine: bool,
                             id: string, status: StageStatus, processed: int, total: Option<int>) {
    && (fine ==> IsConfigured(secrets) && row.Some? && row'.Some? && IsMarked(row.value, row', id, status, processed, total))
    && (!fine ==> row' == row)
    && (!fine && IsConfigured(secrets) && row.Some? ==> IsMarked(row.value, None, id, status, processed, total))
  }

  lemma MarkedIs(secrets: Encryption.Secrets, row: Option<Row>, id: string, status: StageStatus, processed: int, total: Option<int>)
    ensures var (outcome, row') := MarkOutcome(secrets, row, id, status, processed, total);
            IsRecorded(secrets, row, row', outcome.Fine?, id, status, processed, total)
  {
    if row.Some? {
      StageMarkedIs(row.value, id, status, processed, total);
    }
  }

  /** The outcome and the new row of an operation on a stage. */
  function MarkOutcome(secrets: Encryption.Secrets, row: Option<Row>, id: string, status: StageStatus, processed: int, total: Option<int>)
    : (Outcome, Option<Row>)
  {
    if !RequiredState(secrets, row).Fine? then (RequiredState(secrets, row), row)
    else
      var row' := StageMarked(row.value, id, status, processed, total);
      if row'.None? then (UnknownStage, row) else (Fine, row')
  }

  function LiveAfterRead(status: Status, live: Option<Live>, now: int): Option<Live> {
    if LiveUsable(status, live, now) then live else None
  }

  function Shown(row: Option<Row>, live: Option<Live>, now: int): Snapshot {
    var stored := if row.None? then Progress(None, []) else ProgressOf(row.value);
    Snapshot(StatusOf(row), KeyOrderOf(row),
             if row.None? then None else Some(row.value.host),
             if row.None? then None else row.value.lastCompletedStage,
             if row.None? then 0 else row.value.processedRecords,
             if row.None? then None else row.value.lastError,
             Overlaid(StatusOf(row), stored, live, now))
  }

  class Service {
    const secrets: Encryption.Secrets
    const host: string
    const store: Store
    var lastUpdateAt: map<string, int>
    var lastUpdateRecords: map<string, int>

    constructor (secrets: Encryption.Secrets, host: string, store: Store)
      ensures this.secrets == secrets && this.host == host && this.store == store
      ensures lastUpdateAt == map[] && lastUpdateRecords == map[]
    {
      this.secrets, this.host, this.store := secrets, host, store;
      lastUpdateAt, lastUpdateRecords := map[], map[];
    }

    method GetSnapshot(now: int) returns (outcome: Outcome, snapshot: Snapshot)
      modifies store`live
      ensures outcome == if IsBlank(secrets.current) then NoSecret else Fine
      ensures outcome.Fine? ==>
        if Configuration(secrets).Fine? then
          snapshot == Shown(store.row, old(store.live), now) && store.live == LiveAfterRead(StatusOf(store.row), old(store.live), now)
        else
          snapshot == NotRequired && store.live == old(store.live)
      ensures outcome.Fine? ==> (snapshot.Snapshot? <==> IsConfigured(secrets))
      ensures snapshot.Snapshot? ==>
        store.live == if store.row.Some? && store.row.value.status == MigrationInProgress && old(store.live).Some?
                         && now - old(store.live).value.updatedAt <= 600000 then old(store.live) else None
      ensures snapshot.Snapshot? && store.row.None? ==> snapshot == Snapshot(PendingMigration, PreviousThenCurrent, None, None, 0, None, Progress(None, []))
      ensures snapshot.Snapshot? && store.row.Some? ==>
        var row := store.row.value;
        && snapshot.status == row.status && snapshot.host == Some(row.host) && snapshot.lastCompletedStage == row.lastCompletedStage
        && snapshot.processedRecords == row.processedRecords && snapshot.lastError == row.lastError
        && (snapshot.keyOrder == CurrentThenPrevious <==> row.status == MigrationCompleted)
        && IsOverlaid(row.status, if row.progress.Some? then row.progress.value else Progress(None, []), old(store.live), now, snapshot.progress)
    {
      if store.row.Some? {
        OverlaidIs(store.row.value.status, ProgressOf(store.row.value), store.live, now);
      }
      var configuration := Configuration(secrets);
      if configuration.NoSecret? {
        return NoSecret, NotRequired;
      }
      if configuration.NotConfigured? {
        return Fine, NotRequired;
      }
      var state := store.row;
      var progress := if state.None? then Progress(None, []) else ProgressOf(state.value);
      progress := ApplyLiveProgress(StatusOf(state), progress, now);
      snapshot := Snapshot(StatusOf(state), KeyOrderOf(state),
                           if state.None? then None else Some(state.value.host),
                           if state.None? then None else state.value.lastCompletedStage,
                           if state.None? then 0 else state.value.processedRecords,
                           if state.None? then None else state.value.lastError,
                           progress);
      outcome := Fine;
    }

    method ApplyLiveProgress(status: Status, progress: Progress, now: int) returns (shown: Progress)
      modifies store`live
      ensures shown == Overlaid(status, progress, old(store.live), now)
      ensures store.live == LiveAfterRead(status, old(store.live), now)
    {
      if status != MigrationInProgress {
        store.live := None;
        return progress;
      }
      if store.live.None? {
        return progress;
      }
      var live := store.live.value;
      if now - live.updatedAt > LIVE_PROGRESS_EXPIRY_MS {
        store.live := None;
        return progress;
      }
      var i := Find(progress.stages, live.stageId);
      if i == |progress.stages| {
        return progress;
      }
      var stage := progress.stages[i];
      if stage.status == Completed || live.processed < stage.processed {
        return progress;
      }
      stage := stage.(status := InProgress);
      stage := stage.(processed := live.processed);
      stage := stage.(total := if live.total.Some? then live.total else stage.total);
      shown := Progress(Some(stage.id), progress.stages[i := stage]);
    }

    /** A start is refused exactly if the rotation is not configured or some host has it in
        progress. A started rotation is never reported as completed to its starter. */
    method MarkMigrationStarted(now: int) returns (outcome: Outcome, snapshot: Snapshot)
      modifies this, store
      ensures outcome == StartOutcome(secrets, old(store.row))
      ensures outcome.Fine? <==> IsConfigured(secrets) && !(old(store.row).Some? && old(store.row).value.status == MigrationInProgress)
      ensures outcome.Fine? ==> store.row == Some(Started(host)) && store.live == None
      ensures outcome.Fine? ==> store.row == Some(Row(MigrationInProgress, host, None, 0, None, None))
      ensures outcome.Fine? ==> lastUpdateAt == map[] && lastUpdateRecords == map[]
      ensures outcome.Fine? ==> snapshot.Snapshot? && snapshot.status == MigrationInProgress && snapshot.progress.stages == []
      ensures !outcome.Fine? ==> store.row == old(store.row) && store.live == old(store.live)
      ensures !outcome.Fine? ==> lastUpdateAt == old(lastUpdateAt) && lastUpdateRecords == old(lastUpdateRecords)
    {
      snapshot := NotRequired;
      outcome := Configuration(secrets);
      if !outcome.Fine? {
        return;
      }
      if store.row.Some? && store.row.value.status == MigrationInProgress {
        return AlreadyRunning(store.row.value.host), snapshot;
      }
      lastUpdateAt, lastUpdateRecords := map[], map[];
      store.live := None;
      store.row := Some(Row(MigrationInProgress, host, None, 0, None, None));
      outcome, snapshot := GetSnapshot(now);
    }

    /** Records fresh progress: the stages in the stable order of their indexes, each pending
        and with its total kept. */
    method InitializeMigrationProgress(stages: seq<Stage>) returns (outcome: Outcome)
      modifies store`row
      ensures outcome == RequiredState(secrets, old(store.row))
      ensures outcome.Fine? ==> store.row == Some(Initialized(old(store.row).value, stages))
      ensures outcome.Fine? ==> IsFresh(stages, old(store.row).value, store.row.value)
      ensures !outcome.Fine? ==> store.row == old(store.row)
    {
      outcome := RequiredState(secrets, store.row);
      if !outcome.Fine? {
        return;
      }
      var ordered := Linq.OrderBy(stages, ByIndex);
      var created: seq<Stage> := [];
      for i := 0 to |ordered|
        invariant created == ResetAll(ordered[..i])
      {
        var stage := ordered[i];
        created := created + [Stage(stage.id, stage.displayName, stage.index, Pending, 0, stage.total)];
      }
      assert ordered[..|ordered|] == ordered;
      var state := store.row.value;
      InitializedIsFresh(state, stages);
      state := state.(progress := Some(Progress(None, created)));
      state := state.(lastCompletedStage := None);
      state := state.(processedRecords := 0);
      store.row := Some(state);
    }

    /** `PersistProgress`. */
    method PersistProgress(progress: Progress)
      requires store.row.Some?
      modifies store`row
      ensures store.row == Some(Persisted(old(store.row).value, progress))
    {
      var state := store.row.value;
      state := state.(progress := Some(progress));
      state := state.(processedRecords := TotalProcessed(progress.stages));
      state := state.(lastCompletedStage := LastCompleted(progress.stages));
      store.row := Some(state);
    }

    /** Reads the row, writes one stage and stores the row again. */
    method WriteStage(id: string, status: StageStatus, processed: int, total: Option<int>) returns (outcome: Outcome)
      modifies store`row
      ensures (outcome, store.row) == MarkOutcome(secrets, old(store.row), id, status, processed, total)
      ensures IsRecorded(secrets, old(store.row), store.row, outcome.Fine?, id, status, processed, total)
    {
      MarkedIs(secrets, store.row, id, status, processed, total);
      outcome := RequiredState(secrets, store.row);
      if !outcome.Fine? {
        return;
      }
      var progress := ProgressOf(store.row.value);
      var i := Find(progress.stages, id);
      if i == |progress.stages| {
        return UnknownStage;
      }
      var stage := progress.stages[i];
      stage := stage.(status := status);
      stage := stage.(processed := processed);
      stage := stage.(total := if total.Some? then total else stage.total);
      PersistProgress(Progress(Some(stage.id), progress.stages[i := stage]));
    }

    method MarkMigrationStageStarted(id: string, total: Option<int>) returns (outcome: Outcome)
      modifies store
      ensures (outcome, store.row) == MarkOutcome(secrets, old(store.row), id, InProgress, 0, total)
      ensures IsRecorded(secrets, old(store.row), store.row, outcome.Fine?, id, InProgress, 0, total)
      ensures store.live == if RequiredState(secrets, old(store.row)).Fine? then None else old(store.live)
    {
      outcome := RequiredState(secrets, store.row);
      if !outcome.Fine? {
        return;
      }
      store.live := None;
      outcome := WriteStage(id, InProgress, 0, total);
    }

    /** A report that is not forced is dropped exactly if the stage has been reported before,
        less than the interval ago and with fewer than five new records; a dropped report
        changes nothing, and any other is remembered as the latest. */
    method MarkMigrationProgress(id: string, processed: int, total: Option<int>, force: bool, now: int)
      returns (outcome: Outcome, persisted: bool)
      modifies this`lastUpdateAt, this`lastUpdateRecords, store`row
      ensures !persisted <==>
        && !force && id in old(lastUpdateAt) && id in old(lastUpdateRecords)
        && now - old(lastUpdateAt)[id] < 500
        && processed - old(lastUpdateRecords)[id] < 5
      ensures persisted ==> (outcome, store.row) == MarkOutcome(secrets, old(store.row), id, InProgress, processed, total)
      ensures persisted ==> IsRecorded(secrets, old(store.row), store.row, outcome.Fine?, id, InProgress, processed, total)
      ensures persisted ==> lastUpdateAt == old(lastUpdateAt)[id := now] && lastUpdateRecords == old(lastUpdateRecords)[id := processed]
      ensures !persisted ==> outcome.Fine? && store.row == old(store.row)
      ensures !persisted ==> lastUpdateAt == old(lastUpdateAt) && lastUpdateRecords == old(lastUpdateRecords)
    {
      persisted := ShouldPersistProgress(id, processed, force, now);
      if !persisted {
        return Fine, false;
      }
      outcome := WriteStage(id, InProgress, processed, total);
    }

    method ShouldPersistProgress(id: string, processed: int, force: bool, now: int) returns (persist: bool)
      modifies this`lastUpdateAt, this`lastUpdateRecords
      ensures !persist <==>
        && !force && id in old(lastUpdateAt) && id in old(lastUpdateRecords)
        && now - old(lastUpdateAt)[id] < 500
        && processed - old(lastUpdateRecords)[id] < 5
      ensures lastUpdateAt == if persist then old(lastUpdateAt)[id := now] else old(lastUpdateAt)
      ensures lastUpdateRecords == if persist then old(lastUpdateRecords)[id := processed] else old(lastUpdateRecords)
    {
      if force || id !in lastUpdateAt || id !in lastUpdateRecords
         || processed - lastUpdateRecords[id] >= MINIMUM_UPDATE_RECORDS
         || now - lastUpdateAt[id] >= MINIMUM_UPDATE_MS
      {
        lastUpdateAt := lastUpdateAt[id := now];
        lastUpdateRecords := lastUpdateRecords[id := processed];
        return true;
      }
      return false;
    }

    method ReportLiveMigrationProgress(id: string, processed: int, total: Option<int>, now: int) returns (outcome: Outcome)
      modifies store`live
      ensures outcome == if IsBlank(secrets.current) then NoSecret else Fine
      ensures store.live == if Configuration(secrets).Fine? then Some(Live(id, processed, total, now)) else old(store.live)
    {
      if IsBlank(secrets.current) {
        return NoSecret;
      }
      if Configuration(secrets).Fine? {
        store.live := Some(Live(id, processed, total, now));
      }
      return Fine;
    }

    method MarkMigrationStageCompleted(id: string, processed: int, total: Option<int>) returns (outcome: Outcome)
      modifies store
      ensures (outcome, store.row) == MarkOutcome(secrets, old(store.row), id, Completed, processed, total)
      ensures IsRecorded(secrets, old(store.row), store.row, outcome.Fine?, id, Completed, processed, total)
      ensures store.live == if RequiredState(secrets, old(store.row)).Fine? then None else old(store.live)
    {
      outcome := RequiredState(secrets, store.row);
      if !outcome.Fine? {
        return;
      }
      store.live := None;
      outcome := WriteStage(id, Completed, processed, total);
    }

    method MarkMigrationCompleted() returns (outcome: Outcome)
      modifies store
      ensures outcome == RequiredState(secrets, old(store.row))
      ensures store.row == if outcome.Fine? then Some(Finished(old(store.row).value)) else old(store.row)
      ensures outcome.Fine? <==> IsConfigured(secrets) && old(store.row).Some?
      ensures outcome.Fine? ==> IsFinished(old(store.row).value, store.row.value)
      ensures store.live == if outcome.Fine? then None else old(store.live)
    {
      outcome := RequiredState(secrets, store.row);
      if !outcome.Fine? {
        return;
      }
      store.live := None;
      var state := store.row.value;
      var stages := CompleteRunning(ProgressOf(state).stages);
      state := state.(progress := Some(Progress(None, stages)));
      state := state.(processedRecords := TotalProcessed(stages));
      state := state.(status := MigrationCompleted);
      state := state.(lastError := None);
      store.row := Some(state);
    }

    method CompleteRunning(stages: seq<Stage>) returns (completed: seq<Stage>)
      ensures completed == CompletedIfRunning(stages)
    {
      completed := [];
      for i := 0 to |stages|
        invariant |completed| == i
        invariant forall j :: 0 <= j < i ==> completed[j] == CompletedIfRunning(stages)[j]
      {
        var stage := stages[i];
        if stage.status == InProgress {
          stage := stage.(status := Completed);
        }
        completed := completed + [stage];
      }
    }

    /** A failure without a configured rotation or without a row is not recorded, silently. */
    method MarkMigrationFailed(error: string) returns (outcome: Outcome)
      modifies store
      ensures outcome == if IsBlank(secrets.current) then NoSecret else Fine
      ensures store.row ==
        if RequiredState(secrets, old(store.row)).Fine? then Some(Broken(old(store.row).value, error)) else old(store.row)
      ensures if IsConfigured(secrets) && old(store.row).Some? then store.row.Some? && IsBroken(old(store.row).value, store.row.value, error)
              else store.row == old(store.row)
      ensures store.live == if RequiredState(secrets, old(store.row)).Fine? then None else old(store.live)
    {
      if IsBlank(secrets.current) {
        return NoSecret;
      }
      if !Configuration(secrets).Fine? || store.row.None? {
        return Fine;
      }
      BrokenIs(store.row.value, error);
      store.live := None;
      var state := store.row.value;
      state := state.(status := MigrationFailed);
      state := state.(lastError := Some(error));
      var progress := ProgressOf(state);
      var i := FindCurrent(progress);
      if i < |progress.stages| {
        var stage := progress.stages[i].(status := Failed);
        progress := progress.(stages := progress.stages[i := stage]);
        state := state.(progress := Some(progress));
      }
      state := state.(processedRecords := TotalProcessed(progress.stages));
      store.row := Some(state);
      return Fine;
    }
  }
}
