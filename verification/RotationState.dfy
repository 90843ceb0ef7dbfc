/**
 The persisted state of an API-secret rotation
 (src/api/Fig.Api/Services/ApiSecretRotationStateService.cs and EncryptionMigrationStages.cs).

 `Row` is the one database row for the configured pair of secrets. What each operation of the
 service does to it is given as a function, against which the methods of the service are
 proved in RotationService; the runs of a migration and the hosts that compete for it are in
 RotationRuns and RotationHosts.
 */
module RotationState {
  import opened Text
  import opened Linq

  datatype Status = PendingMigration | MigrationInProgress | MigrationCompleted | MigrationFailed

  datatype KeyOrder = CurrentThenPrevious | PreviousThenCurrent

  datatype StageStatus = Pending | InProgress | Completed | Failed

  datatype Stage = Stage(id: string, displayName: string, index: int, status: StageStatus, processed: int, total: Option<int>)

  datatype Progress = Progress(currentStageId: Option<string>, stages: seq<Stage>)

  datatype Row = Row(status: Status, host: string, lastCompletedStage: Option<string>, processedRecords: int,
                     lastError: Option<string>, progress: Option<Progress>)

  /** An entry of the static `LiveProgress` map. */
  datatype Live = Live(stageId: string, processed: int, total: Option<int>, updatedAt: int)

  const ByIndex: Stage -> int := (stage: Stage) => stage.index

  const IsCompleted: Stage -> bool := (stage: Stage) => stage.status == Completed

  const LIVE_PROGRESS_EXPIRY_MS := 600000

  // ----- stages

  function Create(id: string, displayName: string, index: int): Stage {
    Stage(id, displayName, index, Pending, 0, None)
  }

  /** `EncryptionMigrationStages.CreateProgress`. */
  function CreateProgress(): seq<Stage> {
    [Create("setting-client-preparation", "Client Preparation", 1),
     Create("setting-clients", "Clients", 2),
     Create("web-hook-clients", "Web Hook Clients", 3),
     Create("event-logs", "Event Logs", 4),
     Create("setting-history", "Setting History Records", 5),
     Create("checkpoints", "Checkpoints", 6),
     Create("deferred-changes", "Deferred Changes", 7)]
  }

  ghost predicate Before(a: Stage, b: Stage) {
    a.index < b.index && a.id != b.id && a.displayName != b.displayName
  }

  /** The stages are listed in the order of their indexes; their ids and names are distinct. */
  ghost predicate WellOrdered(stages: seq<Stage>) {
    forall i, j :: 0 <= i < j < |stages| ==> Before(stages[i], stages[j])
  }

  function TotalProcessed(stages: seq<Stage>): int {
    if stages == [] then 0 else TotalProcessed(stages[..|stages| - 1]) + stages[|stages| - 1].processed
  }

  /** `FirstOrDefault` by id: the position of the stage, or the length of the list. */
  function Find(stages: seq<Stage>, id: string): (i: nat)
    ensures i <= |stages|
    ensures i < |stages| ==> stages[i].id == id
    ensures forall j :: 0 <= j < i ==> stages[j].id != id
  {
    if stages == [] then 0 else if stages[0].id == id then 0 else 1 + Find(stages[1..], id)
  }

  function FindCurrent(progress: Progress): (i: nat)
    ensures i <= |progress.stages|
    ensures i < |progress.stages| ==> Some(progress.stages[i].id) == progress.currentStageId
  {
    if progress.currentStageId.None? then |progress.stages| else Find(progress.stages, progress.currentStageId.value)
  }

  /** The display name of the completed stage with the highest index. */
  function LastCompleted(stages: seq<Stage>): Option<string> {
    var completed := OrderBy(Filter(stages, IsCompleted), ByIndex);
    if completed == [] then None else Some(completed[|completed| - 1].displayName)
  }

  // ----- the operations on the row

  function ProgressOf(row: Row): Progress {
    if row.progress.None? then Progress(None, []) else row.progress.value
  }

  /** `ApplyMigrationStarted`. */
  function Started(host: string): Row {
    Row(MigrationInProgress, host, None, 0, None, None)
  }

  function Reset(stage: Stage): Stage {
    stage.(status := Pending, processed := 0)
  }

  function ResetAll(stages: seq<Stage>): seq<Stage> {
    seq(|stages|, i requires 0 <= i < |stages| => Reset(stages[i]))
  }

  /** `InitializeMigrationProgress`. */
  function Initialized(row: Row, stages: seq<Stage>): Row {
    row.(progress := Some(Progress(None, ResetAll(OrderBy(stages, ByIndex)))), lastCompletedStage := None, processedRecords := 0)
  }

  /** `PersistProgress`. */
  function Persisted(row: Row, progress: Progress): Row {
    row.(progress := Some(progress),
         processedRecords := TotalProcessed(progress.stages),
         lastCompletedStage := LastCompleted(progress.stages))
  }

  function Counted(stage: Stage, status: StageStatus, processed: int, total: Option<int>): Stage {
    stage.(status := status, processed := processed, total := if total.Some? then total else stage.total)
  }

  /** Stage i gets a status and counts and becomes the current stage. */
  function StageWritten(row: Row, i: nat, status: StageStatus, processed: int, total: Option<int>): Row
    requires i < |ProgressOf(row).stages|
  {
    var stages := ProgressOf(row).stages;
    Persisted(row, Progress(Some(stages[i].id), stages[i := Counted(stages[i], status, processed, total)]))
  }

  /** The shared shape of the three stage operations; None stands for the exception for a stage
      that was not initialized. */
  function StageMarked(row: Row, id: string, status: StageStatus, processed: int, total: Option<int>): Option<Row> {
    var i := Find(ProgressOf(row).stages, id);
    if i == |ProgressOf(row).stages| then None else Some(StageWritten(row, i, status, processed, total))
  }

  function CompletedIfRunning(stages: seq<Stage>): seq<Stage> {
    seq(|stages|, i requires 0 <= i < |stages| =>
      if stages[i].status == InProgress then stages[i].(status := Completed) else stages[i])
  }

  /** `MarkMigrationCompleted`; the last completed stage is not written again. */
  function Finished(row: Row): Row {
    var stages := CompletedIfRunning(ProgressOf(row).stages);
    row.(progress := Some(Progress(None, stages)), processedRecords := TotalProcessed(stages),
         status := MigrationCompleted, lastError := None)
  }

  /** The current stage, whatever its status, becomes the failed one. */
  function WithCurrentFailed(progress: Progress): Progress {
    var i := FindCurrent(progress);
    if i == |progress.stages| then progress else progress.(stages := progress.stages[i := progress.stages[i].(status := Failed)])
  }

  /** `MarkMigrationFailed`. */
  function Broken(row: Row, error: string): Row {
    var progress := WithCurrentFailed(ProgressOf(row));
    row.(status := MigrationFailed, lastError := Some(error),
         progress := if row.progress.None? then None else Some(progress),
         processedRecords := TotalProcessed(progress.stages))
  }

  function StatusOf(row: Option<Row>): Status {
    if row.None? then PendingMigration else row.value.status
  }

  function KeyOrderOf(row: Option<Row>): KeyOrder {
    if StatusOf(row) == MigrationCompleted then CurrentThenPrevious else PreviousThenCurrent
  }

  // ----- the overlay of live progress

  /** The live entry is still usable: the migration runs and the entry is recent. */
  predicate LiveUsable(status: Status, live: Option<Live>, now: int) {
    status == MigrationInProgress && live.Some? && now - live.value.updatedAt <= LIVE_PROGRESS_EXPIRY_MS
  }

  /** `ApplyLiveProgress` on the progress. */
  function Overlaid(status: Status, progress: Progress, live: Option<Live>, now: int): Progress {
    if !LiveUsable(status, live, now) then progress
    else
      var i := Find(progress.stages, live.value.stageId);
      if i == |progress.stages| || progress.stages[i].status == Completed || live.value.processed < progress.stages[i].processed then
        progress
      else
        Progress(Some(progress.stages[i].id),
                 progress.stages[i := Counted(progress.stages[i], InProgress, live.value.processed, live.value.total)])
  }

  // ----- what the operations do, field by field

  ghost predicate FirstWithId(stages: seq<Stage>, id: string, i: nat) {
    i < |stages| && stages[i].id == id && forall j :: 0 <= j < i ==> stages[j].id != id
  }

  lemma FoundAt(stages: seq<Stage>, id: string)
    ensures Find(stages, id) == |stages| <==> forall j :: 0 <= j < |stages| ==> stages[j].id != id
    ensures forall i: nat :: FirstWithId(stages, id, i) ==> Find(stages, id) == i
    ensures Find(stages, id) < |stages| ==> FirstWithId(stages, id, Find(stages, id))
  {
  }

  /** The one stage has the status and the counts, a total only if it is known, and is the current
      one; no other stage, and no other part of the progress, changed. */
  ghost predicate IsWritten(progress: Progress, progress': Progress, i: nat, status: StageStatus, processed: int, total: Option<int>)
    requires i < |progress.stages|
  {
    var stage := progress.stages[i];
    && progress'.currentStageId == Some(stage.id)
    && progress'.stages == progress.stages[i := Stage(stage.id, stage.displayName, stage.index, status, processed,
                                                      if total.Some? then total else stage.total)]
  }

  /** The stage with the highest index among the completed ones has the name, if any is completed. */
  ghost predicate IsLastCompleted(stages: seq<Stage>, name: Option<string>) {
    && (name.None? <==> forall i :: 0 <= i < |stages| ==> stages[i].status != Completed)
    && (name.Some? ==> exists i :: && 0 <= i < |stages| && stages[i].status == Completed && stages[i].displayName == name.value
                                   && forall j :: 0 <= j < |stages| && stages[j].status == Completed ==> stages[j].index <= stages[i].index)
  }

  lemma LastCompletedIs(stages: seq<Stage>)
    ensures IsLastCompleted(stages, LastCompleted(stages))
  {
    var completed := Filter(stages, IsCompleted);
    var ordered := OrderBy(completed, ByIndex);
    FilterEmpty(stages, IsCompleted);
    if ordered != [] {
      var last := ordered[|ordered| - 1];
      assert last in multiset(ordered) && last in multiset(completed);
      FilterHas(stages, IsCompleted, last);
      forall j | 0 <= j < |stages| && stages[j].status == Completed ensures stages[j].index <= last.index {
        FilterHas(stages, IsCompleted, stages[j]);
        assert stages[j] in multiset(completed) && stages[j] in multiset(ordered);
        var k :| 0 <= k < |ordered| && ordered[k] == stages[j];
        assert ByIndex(ordered[k]) <= ByIndex(last);
      }
      var i :| 0 <= i < |stages| && stages[i] == last;
    } else {
      assert multiset(completed) == multiset(ordered);
    }
  }

  lemma TotalSnoc(stages: seq<Stage>, stage: Stage)
    ensures TotalProcessed([]) == 0 && TotalProcessed(stages + [stage]) == TotalProcessed(stages) + stage.processed
  {
    assert (stages + [stage])[..|stages|] == stages;
  }

  /** An operation on a stage fails exactly if no stage has the id, and else writes the first that has
      it; the records are counted again, the last completed stage is looked up again. */
  ghost predicate IsMarked(row: Row, row': Option<Row>, id: string, status: StageStatus, processed: int, total: Option<int>) {
    var stages := if row.progress.Some? then row.progress.value.stages else [];
    && (row'.None? <==> forall j :: 0 <= j < |stages| ==> stages[j].id != id)
    && (row'.Some? ==>
          && row.progress.Some? && row'.value.progress.Some?
          && (forall i: nat :: FirstWithId(stages, id, i) ==>
                IsWritten(row.progress.value, row'.value.progress.value, i, status, processed, total))
          && row'.value.status == row.status && row'.value.host == row.host && row'.value.lastError == row.lastError
          && row'.value.processedRecords == TotalProcessed(row'.value.progress.value.stages)
          && IsLastCompleted(row'.value.progress.value.stages, row'.value.lastCompletedStage))
  }

  lemma StageMarkedIs(row: Row, id: string, status: StageStatus, processed: int, total: Option<int>)
    ensures IsMarked(row, StageMarked(row, id, status, processed, total), id, status, processed, total)
  {
    FoundAt(ProgressOf(row).stages, id);
    var row' := StageMarked(row, id, status, processed, total);
    if row'.Some? {
      LastCompletedIs(row'.value.progress.value.stages);
      var i := Find(ProgressOf(row).stages, id);
      assert IsWritten(row.progress.value, row'.value.progress.value, i, status, processed, total);
    }
  }

  /** What is still in progress is completed with the migration, nothing is current any more, and no
      error is left. */
  ghost predicate IsFinished(row: Row, row': Row) {
    var stages := if row.progress.Some? then row.progress.value.stages else [];
    && row'.status == MigrationCompleted && row'.lastError == None && row'.host == row.host
    && row'.lastCompletedStage == row.lastCompletedStage
    && row'.progress.Some? && row'.progress.value.currentStageId == None && |row'.progress.value.stages| == |stages|
    && (forall i :: 0 <= i < |stages| ==>
          row'.progress.value.stages[i] == if stages[i].status == InProgress then stages[i].(status := Completed) else stages[i])
    && row'.processedRecords == TotalProcessed(row'.progress.value.stages)
  }

  /** The first stage with the current id has failed, no other stage changed, and the error is noted. */
  ghost predicate IsBroken(row: Row, row': Row, error: string) {
    && row'.status == MigrationFailed && row'.lastError == Some(error) && row'.host == row.host
    && row'.lastCompletedStage == row.lastCompletedStage && (row'.progress.Some? <==> row.progress.Some?)
    && (row.progress.Some? ==>
          var progress, progress' := row.progress.value, row'.progress.value;
          && progress'.currentStageId == progress.currentStageId && row'.processedRecords == TotalProcessed(progress'.stages)
          && ((forall j :: 0 <= j < |progress.stages| ==> Some(progress.stages[j].id) != progress.currentStageId) ==> progress' == progress)
          && forall i: nat :: progress.currentStageId.Some? && FirstWithId(progress.stages, progress.currentStageId.value, i) ==>
               progress'.stages == progress.stages[i := progress.stages[i].(status := Failed)])
    && (row.progress.None? ==> row'.processedRecords == 0)
  }

  lemma FinishedIs(row: Row)
    ensures IsFinished(row, Finished(row))
  {
  }

  lemma BrokenIs(row: Row, error: string)
    ensures IsBroken(row, Broken(row, error), error)
  {
    if row.progress.Some? && row.progress.value.currentStageId.Some? {
      FoundAt(row.progress.value.stages, row.progress.value.currentStageId.value);
    }
  }

  /** An entry of live progress shows only while the migration is in progress, for ten minutes, on a
      stage that is not completed and has no more records than the entry. */
  ghost predicate IsOverlaid(status: Status, progress: Progress, live: Option<Live>, now: int, shown: Progress) {
    if status == MigrationInProgress && live.Some? && now - live.value.updatedAt <= 600000 then
      && ((forall j :: 0 <= j < |progress.stages| ==> progress.stages[j].id != live.value.stageId) ==> shown == progress)
      && forall i: nat :: FirstWithId(progress.stages, live.value.stageId, i) ==>
           if progress.stages[i].status == Completed || live.value.processed < progress.stages[i].processed then shown == progress
           else IsWritten(progress, shown, i, InProgress, live.value.processed, live.value.total)
    else shown == progress
  }

  lemma OverlaidIs(status: Status, progress: Progress, live: Option<Live>, now: int)
    ensures IsOverlaid(status, progress, live, now, Overlaid(status, progress, live, now))
  {
    if live.Some? {
      FoundAt(progress.stages, live.value.stageId);
    }
  }

  // ----- facts

  lemma CreatedIdsDiffer()
    ensures forall i, j :: 0 <= i < j < |CreateProgress()| ==> CreateProgress()[i].id != CreateProgress()[j].id
  {
    var all := CreateProgress();
    assert all[1].id[8] == 'c' && all[4].id[8] == 'h';
    assert all[2].id[0] == 'w' && all[6].id[0] == 'd';
    forall i, j | 0 <= i < j < |all| ensures all[i].id != all[j].id {
      assert |all[i].id| != |all[j].id| || (i == 1 && j == 4) || (i == 2 && j == 6);
    }
  }

  lemma CreatedNamesDiffer()
    ensures forall i, j :: 0 <= i < j < |CreateProgress()| ==> CreateProgress()[i].displayName != CreateProgress()[j].displayName
  {
    var all := CreateProgress();
    assert all[2].displayName[0] == 'W' && all[6].displayName[0] == 'D';
    forall i, j | 0 <= i < j < |all| ensures all[i].displayName != all[j].displayName {
      assert |all[i].displayName| != |all[j].displayName| || (i == 2 && j == 6);
    }
  }

  lemma CreatedStages()
    ensures |CreateProgress()| == 7 && WellOrdered(CreateProgress())
    ensures forall i :: 0 <= i < 7 ==> CreateProgress()[i].processed == 0 && CreateProgress()[i].status == Pending
  {
    CreatedIdsDiffer();
    CreatedNamesDiffer();
    assert forall i :: 0 <= i < 7 ==> CreateProgress()[i].index == i + 1;
  }

  lemma {:induction false} FindOwn(stages: seq<Stage>, i: nat)
    requires WellOrdered(stages) && i < |stages|
    ensures Find(stages, stages[i].id) == i
  {
    var k := Find(stages, stages[i].id);
    assert k <= i;
    assert k < i ==> Before(stages[k], stages[i]);
  }

  lemma {:induction false} NothingProcessed(stages: seq<Stage>)
    requires forall i :: 0 <= i < |stages| ==> stages[i].processed == 0
    ensures TotalProcessed(stages) == 0
  {
    if stages != [] {
      NothingProcessed(stages[..|stages| - 1]);
    }
  }

  lemma {:induction false} FilterPrefix(stages: seq<Stage>, k: nat)
    requires k <= |stages|
    requires forall i :: 0 <= i < |stages| ==> (IsCompleted(stages[i]) <==> i < k)
    ensures Filter(stages, IsCompleted) == stages[..k]
  {
    if stages != [] {
      var n := |stages| - 1;
      FilterPrefix(stages[..n], if k <= n then k else n);
      if k == |stages| {
        assert stages[..k] == stages[..n] + [stages[n]];
      } else {
        assert stages[..n][..k] == stages[..k];
      }
    }
  }

  // ----- fresh progress

  function WithIndex(stages: seq<Stage>, k: int): seq<Stage> {
    Filter(stages, HasKey(ByIndex, k))
  }

  /** The row has progress of which nothing is done: no current stage, all the given stages reset,
      sorted by index and, among equal indexes, in the given order. Nothing else of it changed. */
  ghost predicate IsFresh(given: seq<Stage>, before: Row, row: Row) {
    && row.progress.Some? && row.progress.value.currentStageId == None
    && SortedBy(row.progress.value.stages, ByIndex)
    && multiset(row.progress.value.stages) == multiset(ResetAll(given))
    && (forall k :: WithIndex(row.progress.value.stages, k) == WithIndex(ResetAll(given), k))
    && (forall i :: 0 <= i < |row.progress.value.stages| ==> row.progress.value.stages[i].status == Pending)
    && row.processedRecords == 0 == TotalProcessed(row.progress.value.stages)
    && row.lastCompletedStage == None == LastCompleted(row.progress.value.stages)
    && row.status == before.status && row.host == before.host && row.lastError == before.lastError
  }

  lemma ResetSnoc(stages: seq<Stage>, stage: Stage)
    ensures ResetAll(stages + [stage]) == ResetAll(stages) + [Reset(stage)]
    ensures (ResetAll(stages) + [Reset(stage)])[..|stages|] == ResetAll(stages)
  {
  }

  lemma ResetKeepsOrder(stages: seq<Stage>)
    requires SortedBy(stages, ByIndex)
    ensures SortedBy(ResetAll(stages), ByIndex)
  {
  }

  lemma {:induction false} ResetInserted(stages: seq<Stage>, stage: Stage)
    requires SortedBy(stages, ByIndex) && SortedBy(ResetAll(stages), ByIndex)
    ensures ResetAll(Insert(stages, stage, ByIndex)) == Insert(ResetAll(stages), Reset(stage), ByIndex)
  {
    if stages == [] {
      ResetSnoc(stages, stage);
      assert stages + [stage] == [stage] && ResetAll(stages) == [];
    } else {
      var init, last := stages[..|stages| - 1], stages[|stages| - 1];
      assert stages == init + [last];
      ResetSnoc(init, last);
      ResetKeepsOrder(init);
      InsertSnoc(init, last, stage, ByIndex);
      InsertSnoc(ResetAll(init), Reset(last), Reset(stage), ByIndex);
      if ByIndex(last) <= ByIndex(stage) {
        ResetSnoc(stages, stage);
      } else {
        ResetInserted(init, stage);
        ResetSnoc(Insert(init, stage, ByIndex), last);
      }
    }
  }

  lemma OrderByUnfolds(s: seq<Stage>, last: Stage)
    ensures OrderBy(s + [last], ByIndex) == Insert(OrderBy(s, ByIndex), last, ByIndex)
  {
    assert (s + [last])[..|s|] == s;
  }

  lemma ResetSortedStep(init: seq<Stage>, last: Stage)
    requires ResetAll(OrderBy(init, ByIndex)) == OrderBy(ResetAll(init), ByIndex)
    ensures ResetAll(OrderBy(init + [last], ByIndex)) == OrderBy(ResetAll(init + [last]), ByIndex)
  {
    var sorted := OrderBy(init, ByIndex);
    ResetKeepsOrder(sorted);
    ResetInserted(sorted, last);
    ResetSnoc(init, last);
    OrderByUnfolds(init, last);
    OrderByUnfolds(ResetAll(init), Reset(last));
  }

  /** Sorting looks at the index alone, which a reset keeps. */
  lemma {:induction false} ResetSorted(stages: seq<Stage>)
    ensures ResetAll(OrderBy(stages, ByIndex)) == OrderBy(ResetAll(stages), ByIndex)
  {
    if stages == [] {
      assert ResetAll(stages) == [];
    } else {
      var init, last := stages[..|stages| - 1], stages[|stages| - 1];
      assert stages == init + [last];
      ResetSorted(init);
      ResetSortedStep(init, last);
    }
  }

  lemma ResetIsPending(stages: seq<Stage>)
    ensures forall i :: 0 <= i < |stages| ==> ResetAll(stages)[i].status == Pending && !IsCompleted(ResetAll(stages)[i])
    ensures TotalProcessed(ResetAll(stages)) == 0 && LastCompleted(ResetAll(stages)) == None
  {
    NothingProcessed(ResetAll(stages));
    FilterPrefix(ResetAll(stages), 0);
  }

  lemma InitializedIsFresh(row: Row, stages: seq<Stage>)
    ensures IsFresh(stages, row, Initialized(row, stages))
  {
    var ordered, renewed := OrderBy(stages, ByIndex), ResetAll(stages);
    ResetIsPending(ordered);
    ResetSorted(stages);
    forall k ensures WithIndex(OrderBy(renewed, ByIndex), k) == WithIndex(renewed, k) {
      OrderByStable(renewed, ByIndex, k);
    }
  }
}
