/**
 The runs of `PerformMigration` on the rotation row
 (src/api/Fig.Api/Services/EncryptionMigrationService.cs:80-100), from the moment its progress
 was initialized: which stage operations it makes in which order, an exception striking
 anywhere, with live reports and readers of the snapshot in between.
 */
module RotationRuns {
  import opened Text
  import opened Linq
  import opened RotationState

  datatype Position = Between(next: nat) | Inside(stage: nat) | Done | Broke

  datatype Call =
    | StartStage(total: Option<int>)
    | ReportProgress(processed: int, total: Option<int>)
    | ReportLive(processed: int, total: Option<int>, now: int)
    | CompleteStage(processed: int, total: Option<int>)
    | Finish
    | Fail(error: string)

  datatype Run = Run(position: Position, row: Row, live: Option<Live>)

  ghost predicate Marks(all: seq<Stage>, r: Run, i: nat, status: StageStatus, processed: int, total: Option<int>, r': Run) {
    && i < |all|
    && StageMarked(r.row, all[i].id, status, processed, total) == Some(r'.row)
  }

  /** The calls the migration makes from a position, and where they lead. */
  ghost predicate Next(all: seq<Stage>, r: Run, call: Call, r': Run) {
    match call
    case StartStage(total) =>
      && r.position.Between? && Marks(all, r, r.position.next, InProgress, 0, total, r')
      && r'.position == Inside(r.position.next) && r'.live == None
    case ReportProgress(processed, total) =>
      && r.position.Inside? && Marks(all, r, r.position.stage, InProgress, processed, total, r')
      && r'.position == r.position && r'.live == r.live
    case ReportLive(processed, total, now) =>
      && r.position.Inside? && r.position.stage < |all|
      && r' == r.(live := Some(Live(all[r.position.stage].id, processed, total, now)))
    case CompleteStage(processed, total) =>
      && r.position.Inside? && Marks(all, r, r.position.stage, Completed, processed, total, r')
      && r'.position == Between(r.position.stage + 1) && r'.live == None
    case Finish =>
      r.position == Between(|all|) && r' == Run(Done, Finished(r.row), None)
    case Fail(error) =>
      (r.position.Between? || r.position.Inside?) && r' == Run(Broke, Broken(r.row, error), None)
  }

  ghost predicate Steps(all: seq<Stage>, r: Run, r': Run) {
    exists call {:trigger Next(all, r, call, r')} :: Next(all, r, call, r')
  }

  function Begun(all: seq<Stage>, host: string): Run {
    Run(Between(0), Initialized(Started(host), all), None)
  }

  /** A run starts after MarkMigrationStarted and InitializeMigrationProgress. */
  ghost predicate IsRun(all: seq<Stage>, runs: seq<Run>) {
    && runs != []
    && (exists host :: runs[0] == Begun(all, host))
    && forall k :: 0 < k < |runs| ==> Steps(all, runs[k - 1], runs[k])
  }

  // ----- the invariant

  /** The first k stages are completed, the next one, if any, is not, and the rest are pending. */
  ghost predicate Staircase(stages: seq<Stage>, k: nat) {
    && k <= |stages|
    && (forall i :: 0 <= i < k ==> stages[i].status == Completed)
    && (forall i :: k < i < |stages| ==> stages[i].status == Pending)
    && (k < |stages| ==> stages[k].status != Completed)
  }

  ghost predicate SameStage(a: Stage, b: Stage) {
    a.id == b.id && a.displayName == b.displayName && a.index == b.index
  }

  /** The stages are those of the migration, apart from their status and counts. */
  ghost predicate SameStages(all: seq<Stage>, stages: seq<Stage>) {
    |stages| == |all| && forall i :: 0 <= i < |all| ==> SameStage(stages[i], all[i])
  }

  function NameBefore(all: seq<Stage>, i: nat): Option<string>
    requires i <= |all|
  {
    if i == 0 then None else Some(all[i - 1].displayName)
  }

  function IdBefore(all: seq<Stage>, i: nat): Option<string>
    requires i <= |all|
  {
    if i == 0 then None else Some(all[i - 1].id)
  }

  ghost predicate BetweenInv(all: seq<Stage>, row: Row, i: nat) {
    var stages := ProgressOf(row).stages;
    && row.status == MigrationInProgress && |stages| == |all|
    && Staircase(stages, i) && (i < |stages| ==> stages[i].status == Pending)
    && row.lastCompletedStage == NameBefore(all, i)
    && ProgressOf(row).currentStageId == IdBefore(all, i)
  }

  ghost predicate InsideInv(all: seq<Stage>, row: Row, i: nat) {
    var stages := ProgressOf(row).stages;
    && row.status == MigrationInProgress && |stages| == |all| && i < |all|
    && Staircase(stages, i) && stages[i].status == InProgress
    && row.lastCompletedStage == NameBefore(all, i)
    && ProgressOf(row).currentStageId == Some(all[i].id)
  }

  ghost predicate DoneInv(all: seq<Stage>, row: Row) {
    && row.status == MigrationCompleted
    && Staircase(ProgressOf(row).stages, |ProgressOf(row).stages|)
    && |ProgressOf(row).stages| == |all|
    && row.lastCompletedStage == NameBefore(all, |all|)
  }

  ghost predicate BrokeInv(row: Row) {
    && row.status == MigrationFailed
    && exists k: nat :: Staircase(ProgressOf(row).stages, k) && NotRunning(ProgressOf(row).stages, k)
  }

  ghost predicate NotRunning(stages: seq<Stage>, k: nat) {
    k < |stages| ==> stages[k].status != InProgress
  }

  ghost predicate PositionInv(all: seq<Stage>, r: Run) {
    match r.position
    case Between(i) => BetweenInv(all, r.row, i)
    case Inside(i) => InsideInv(all, r.row, i)
    case Done => DoneInv(all, r.row)
    case Broke => BrokeInv(r.row)
  }

  ghost predicate RowInv(all: seq<Stage>, row: Row) {
    && row.progress.Some?
    && SameStages(all, row.progress.value.stages)
    && row.processedRecords == TotalProcessed(row.progress.value.stages)
  }

  /** A live entry belongs to the running stage. */
  ghost predicate LiveInv(all: seq<Stage>, r: Run) {
    r.live.Some? ==> r.position.Inside? && r.position.stage < |all| && r.live.value.stageId == all[r.position.stage].id
  }

  ghost predicate RunInv(all: seq<Stage>, r: Run) {
    RowInv(all, r.row) && PositionInv(all, r) && LiveInv(all, r)
  }

  // ----- lemmas about stage lists

  lemma SameStagesOrdered(all: seq<Stage>, stages: seq<Stage>)
    requires WellOrdered(all) && SameStages(all, stages)
    ensures WellOrdered(stages)
  {
    forall i, j | 0 <= i < j < |stages| ensures Before(stages[i], stages[j]) {
      assert Before(all[i], all[j]) && SameStage(stages[i], all[i]) && SameStage(stages[j], all[j]);
    }
  }

  /** On a staircase, the last completed stage is the one before the top. */
  lemma StaircaseLastCompleted(all: seq<Stage>, stages: seq<Stage>, k: nat)
    requires WellOrdered(all) && SameStages(all, stages) && Staircase(stages, k)
    ensures LastCompleted(stages) == NameBefore(all, k)
  {
    SameStagesOrdered(all, stages);
    FilterPrefix(stages, k);
    assert SortedBy(stages[..k], ByIndex) by {
      forall i, j | 0 <= i < j < |stages[..k]| ensures ByIndex(stages[..k][i]) <= ByIndex(stages[..k][j]) {
        assert Before(stages[i], stages[j]);
      }
    }
    OrderByOfSorted(stages[..k], ByIndex);
    assert k > 0 ==> SameStage(stages[k - 1], all[k - 1]);
  }

  ghost predicate Replaced(stages: seq<Stage>, i: nat, status: StageStatus, stages': seq<Stage>) {
    && i < |stages| && |stages'| == |stages|
    && stages'[i].status == status
    && forall j :: 0 <= j < |stages| && j != i ==> stages'[j] == stages[j]
  }

  lemma SameAfterWrite(all: seq<Stage>, stages: seq<Stage>, i: nat, stage: Stage)
    requires SameStages(all, stages) && i < |all| && SameStage(stage, stages[i])
    ensures SameStages(all, stages[i := stage])
  {
    assert SameStage(stages[i], all[i]);
  }

  lemma FindSame(all: seq<Stage>, stages: seq<Stage>, i: nat)
    requires WellOrdered(all) && SameStages(all, stages) && i < |all|
    ensures Find(stages, all[i].id) == i && stages[i].id == all[i].id
  {
    SameStagesOrdered(all, stages);
    FindOwn(stages, i);
    assert SameStage(stages[i], all[i]);
  }

  /** What a stage operation does to the row: one stage changes, all else is recomputed. */
  lemma MarkedRow(all: seq<Stage>, row: Row, i: nat, status: StageStatus, processed: int, total: Option<int>, row': Row)
    requires WellOrdered(all) && RowInv(all, row) && i < |all|
    requires StageMarked(row, all[i].id, status, processed, total) == Some(row')
    ensures RowInv(all, row') && row'.status == row.status
    ensures Replaced(ProgressOf(row).stages, i, status, ProgressOf(row').stages)
    ensures ProgressOf(row').stages[i].processed == processed
    ensures ProgressOf(row').currentStageId == Some(all[i].id)
    ensures row'.lastCompletedStage == LastCompleted(ProgressOf(row').stages)
  {
    var stages := row.progress.value.stages;
    FindSame(all, stages, i);
    SameAfterWrite(all, stages, i, Counted(stages[i], status, processed, total));
  }

  lemma StaircaseReplaced(stages: seq<Stage>, i: nat, status: StageStatus, stages': seq<Stage>)
    requires Staircase(stages, i) && Replaced(stages, i, status, stages')
    ensures status != Completed ==> Staircase(stages', i)
    ensures status == Completed ==> Staircase(stages', i + 1) && (i + 1 < |stages'| ==> stages'[i + 1].status == Pending)
  {
  }

  // ----- each step keeps the invariant

  /** The row after stage i got a new status. */
  ghost predicate Rewritten(all: seq<Stage>, row: Row, i: nat, status: StageStatus, row': Row) {
    && i < |all| && RowInv(all, row') && row'.status == row.status
    && Replaced(ProgressOf(row).stages, i, status, ProgressOf(row').stages)
    && ProgressOf(row').currentStageId == Some(all[i].id)
    && row'.lastCompletedStage == LastCompleted(ProgressOf(row').stages)
  }

  lemma RewrittenRunning(all: seq<Stage>, row: Row, i: nat, row': Row)
    requires WellOrdered(all) && (BetweenInv(all, row, i) || InsideInv(all, row, i)) && Rewritten(all, row, i, InProgress, row')
    ensures InsideInv(all, row', i)
  {
    StaircaseReplaced(ProgressOf(row).stages, i, InProgress, ProgressOf(row').stages);
    StaircaseLastCompleted(all, ProgressOf(row').stages, i);
  }

  lemma RewrittenCompleted(all: seq<Stage>, row: Row, i: nat, row': Row)
    requires WellOrdered(all) && InsideInv(all, row, i) && Rewritten(all, row, i, Completed, row')
    ensures BetweenInv(all, row', i + 1)
  {
    StaircaseReplaced(ProgressOf(row).stages, i, Completed, ProgressOf(row').stages);
    StaircaseLastCompleted(all, ProgressOf(row').stages, i + 1);
  }

  lemma MarkKeepsInside(all: seq<Stage>, row: Row, i: nat, processed: int, total: Option<int>, row': Row)
    requires WellOrdered(all) && RowInv(all, row) && (BetweenInv(all, row, i) || InsideInv(all, row, i)) && i < |all|
    requires StageMarked(row, all[i].id, InProgress, processed, total) == Some(row')
    ensures RowInv(all, row') && InsideInv(all, row', i)
  {
    MarkedRow(all, row, i, InProgress, processed, total, row');
    RewrittenRunning(all, row, i, row');
  }

  lemma CompleteMovesOn(all: seq<Stage>, row: Row, i: nat, processed: int, total: Option<int>, row': Row)
    requires WellOrdered(all) && RowInv(all, row) && InsideInv(all, row, i)
    requires StageMarked(row, all[i].id, Completed, processed, total) == Some(row')
    ensures RowInv(all, row') && BetweenInv(all, row', i + 1)
  {
    MarkedRow(all, row, i, Completed, processed, total, row');
    RewrittenCompleted(all, row, i, row');
  }

  /** At the end of a run no stage is left running: finishing changes none. */
  lemma NoneRunning(all: seq<Stage>, row: Row)
    requires RowInv(all, row) && BetweenInv(all, row, |all|)
    ensures ProgressOf(Finished(row)).stages == ProgressOf(row).stages
  {
    assert CompletedIfRunning(ProgressOf(row).stages) == ProgressOf(row).stages;
  }

  lemma FinishEnds(all: seq<Stage>, row: Row)
    requires RowInv(all, row) && BetweenInv(all, row, |all|)
    ensures RowInv(all, Finished(row)) && DoneInv(all, Finished(row))
  {
    NoneRunning(all, row);
  }

  /** The stage that a failure marks: none before the first stage, the last completed one
      between two stages, the running one inside a stage. */
  lemma CurrentStage(all: seq<Stage>, row: Row, i: nat)
    requires WellOrdered(all) && RowInv(all, row) && i <= |all|
    ensures ProgressOf(row).currentStageId == IdBefore(all, i) ==> FindCurrent(ProgressOf(row)) == if i == 0 then |all| else i - 1
    ensures i < |all| && ProgressOf(row).currentStageId == Some(all[i].id) ==> FindCurrent(ProgressOf(row)) == i
  {
    var stages := row.progress.value.stages;
    if i > 0 {
      FindSame(all, stages, i - 1);
    }
    if i < |all| {
      FindSame(all, stages, i);
    }
  }

  lemma FailureMarks(all: seq<Stage>, row: Row, i: nat, error: string)
    requires RowInv(all, row) && i < |all| && FindCurrent(ProgressOf(row)) == i
    ensures RowInv(all, Broken(row, error)) && Broken(row, error).lastCompletedStage == row.lastCompletedStage
    ensures Replaced(ProgressOf(row).stages, i, Failed, ProgressOf(Broken(row, error)).stages)
  {
    var stages := row.progress.value.stages;
    SameAfterWrite(all, stages, i, stages[i].(status := Failed));
  }

  /** Where the staircase of a failed run ends. */
  function TopAfterFailure(position: Position): (k: nat)
  {
    match position
    case Between(i) => if i == 0 then 0 else i - 1
    case Inside(i) => i
    case _ => 0
  }

  lemma FailBreaksInside(all: seq<Stage>, row: Row, i: nat, error: string)
    requires WellOrdered(all) && RowInv(all, row) && InsideInv(all, row, i)
    ensures RowInv(all, Broken(row, error)) && BrokeInv(Broken(row, error))
    ensures Staircase(ProgressOf(Broken(row, error)).stages, i)
    ensures Broken(row, error).lastCompletedStage == row.lastCompletedStage
  {
    CurrentStage(all, row, i);
    FailureMarks(all, row, i, error);
    var stages' := ProgressOf(Broken(row, error)).stages;
    StaircaseReplaced(ProgressOf(row).stages, i, Failed, stages');
    assert NotRunning(stages', i);
  }

  lemma FailBreaksBetween(all: seq<Stage>, row: Row, i: nat, error: string)
    requires WellOrdered(all) && RowInv(all, row) && BetweenInv(all, row, i)
    ensures RowInv(all, Broken(row, error)) && BrokeInv(Broken(row, error))
    ensures Staircase(ProgressOf(Broken(row, error)).stages, TopAfterFailure(Between(i)))
    ensures Broken(row, error).lastCompletedStage == row.lastCompletedStage
  {
    CurrentStage(all, row, i);
    var stages, stages' := ProgressOf(row).stages, ProgressOf(Broken(row, error)).stages;
    var k := TopAfterFailure(Between(i));
    if i > 0 {
      FailureMarks(all, row, k, error);
      assert Staircase(stages', k);
    } else {
      assert stages' == stages;
    }
    assert NotRunning(stages', k);
  }

  lemma FailBreaks(all: seq<Stage>, r: Run, error: string)
    requires WellOrdered(all) && RowInv(all, r.row) && PositionInv(all, r) && (r.position.Between? || r.position.Inside?)
    ensures RowInv(all, Broken(r.row, error)) && BrokeInv(Broken(r.row, error))
    ensures Staircase(ProgressOf(Broken(r.row, error)).stages, TopAfterFailure(r.position))
    ensures Broken(r.row, error).lastCompletedStage == r.row.lastCompletedStage
  {
    if r.position.Between? {
      FailBreaksBetween(all, r.row, r.position.next, error);
    } else {
      FailBreaksInside(all, r.row, r.position.stage, error);
    }
  }

  lemma StartKeepsRow(all: seq<Stage>, r: Run, total: Option<int>, r': Run)
    requires WellOrdered(all) && RowInv(all, r.row) && r.position.Between? && BetweenInv(all, r.row, r.position.next)
    requires Marks(all, r, r.position.next, InProgress, 0, total, r')
    ensures RowInv(all, r'.row) && InsideInv(all, r'.row, r.position.next)
  {
    MarkKeepsInside(all, r.row, r.position.next, 0, total, r'.row);
  }

  lemma ReportKeepsRow(all: seq<Stage>, r: Run, processed: int, total: Option<int>, r': Run)
    requires WellOrdered(all) && RowInv(all, r.row) && r.position.Inside? && InsideInv(all, r.row, r.position.stage)
    requires Marks(all, r, r.position.stage, InProgress, processed, total, r')
    ensures RowInv(all, r'.row) && InsideInv(all, r'.row, r.position.stage)
  {
    MarkKeepsInside(all, r.row, r.position.stage, processed, total, r'.row);
  }

  lemma CompleteKeepsRow(all: seq<Stage>, r: Run, processed: int, total: Option<int>, r': Run)
    requires WellOrdered(all) && RowInv(all, r.row) && r.position.Inside? && InsideInv(all, r.row, r.position.stage)
    requires Marks(all, r, r.position.stage, Completed, processed, total, r')
    ensures RowInv(all, r'.row) && BetweenInv(all, r'.row, r.position.stage + 1)
  {
    CompleteMovesOn(all, r.row, r.position.stage, processed, total, r'.row);
  }

  lemma StartStep(all: seq<Stage>, r: Run, total: Option<int>, r': Run)
    requires WellOrdered(all) && RowInv(all, r.row) && PositionInv(all, r) && Next(all, r, StartStage(total), r')
    ensures RowInv(all, r'.row) && PositionInv(all, r')
  {
    StartKeepsRow(all, r, total, r');
  }

  lemma ReportStep(all: seq<Stage>, r: Run, processed: int, total: Option<int>, r': Run)
    requires WellOrdered(all) && RowInv(all, r.row) && PositionInv(all, r) && Next(all, r, ReportProgress(processed, total), r')
    ensures RowInv(all, r'.row) && PositionInv(all, r')
  {
    ReportKeepsRow(all, r, processed, total, r');
  }

  lemma CompleteStep(all: seq<Stage>, r: Run, processed: int, total: Option<int>, r': Run)
    requires WellOrdered(all) && RowInv(all, r.row) && PositionInv(all, r) && Next(all, r, CompleteStage(processed, total), r')
    ensures RowInv(all, r'.row) && PositionInv(all, r')
  {
    var i := r.position.stage;
    assert InsideInv(all, r.row, i) && r'.position == Between(i + 1);
    CompleteKeepsRow(all, r, processed, total, r');
  }

  lemma EndCallKeepsRow(all: seq<Stage>, r: Run, call: Call, r': Run)
    requires WellOrdered(all) && RowInv(all, r.row) && PositionInv(all, r) && Next(all, r, call, r')
    requires call.ReportLive? || call.Finish? || call.Fail?
    ensures RowInv(all, r'.row) && PositionInv(all, r')
  {
    match call {
      case ReportLive(_, _, _) =>
      case Finish => FinishEnds(all, r.row);
      case Fail(error) => FailBreaks(all, r, error);
    }
  }

  lemma CallKeepsLive(all: seq<Stage>, r: Run, call: Call, r': Run)
    requires LiveInv(all, r) && Next(all, r, call, r')
    ensures LiveInv(all, r')
  {
  }

  lemma StepKeepsInv(all: seq<Stage>, r: Run, r': Run)
    requires WellOrdered(all) && RunInv(all, r) && Steps(all, r, r')
    ensures RunInv(all, r')
  {
    var call :| Next(all, r, call, r');
    match call {
      case StartStage(total) => StartStep(all, r, total, r');
      case ReportProgress(processed, total) => ReportStep(all, r, processed, total, r');
      case CompleteStage(processed, total) => CompleteStep(all, r, processed, total, r');
      case _ => EndCallKeepsRow(all, r, call, r');
    }
    CallKeepsLive(all, r, call, r');
  }

  lemma ResetInOrder(all: seq<Stage>)
    ensures SameStages(all, ResetAll(all)) && TotalProcessed(ResetAll(all)) == 0
    ensures Staircase(ResetAll(all), 0)
    ensures forall i :: 0 <= i < |all| ==> ResetAll(all)[i].status == Pending
  {
    NothingProcessed(ResetAll(all));
  }

  lemma OrderedAlready(all: seq<Stage>)
    requires WellOrdered(all)
    ensures OrderBy(all, ByIndex) == all
  {
    assert SortedBy(all, ByIndex) by {
      forall i, j | 0 <= i < j < |all| ensures ByIndex(all[i]) <= ByIndex(all[j]) {
        assert Before(all[i], all[j]);
      }
    }
    OrderByOfSorted(all, ByIndex);
  }

  lemma BegunInv(all: seq<Stage>, host: string)
    requires WellOrdered(all)
    ensures RunInv(all, Begun(all, host))
  {
    OrderedAlready(all);
    ResetInOrder(all);
    assert ProgressOf(Begun(all, host).row) == Progress(None, ResetAll(all));
  }

  lemma {:induction false} RunsKeepInv(all: seq<Stage>, runs: seq<Run>, k: nat)
    requires WellOrdered(all) && IsRun(all, runs) && k < |runs|
    ensures RunInv(all, runs[k])
  {
    if k == 0 {
      var host :| runs[0] == Begun(all, host);
      BegunInv(all, host);
    } else {
      RunsKeepInv(all, runs, k - 1);
      StepKeepsInv(all, runs[k - 1], runs[k]);
    }
  }

  // ----- theorems

  ghost predicate StagesInOrder(stages: seq<Stage>) {
    exists k: nat :: Staircase(stages, k)
  }

  /** The recorded last completed stage is the one with the highest index among the completed. */
  ghost predicate HighestCompleted(row: Row) {
    exists k: nat :: Staircase(ProgressOf(row).stages, k) && row.lastCompletedStage == NameBefore(ProgressOf(row).stages, k)
  }

  /** In every state of every run of a migration over stages in index order, as its seven are,
      wherever an exception strikes: the stages in index order are completed, then at most one running or failed, then
      pending; the stored record count is the sum over the stages; while the migration is in
      progress the last completed stage is the highest completed one; and a run that finishes
      has all of them completed. */
  lemma MigrationRuns(all: seq<Stage>, runs: seq<Run>, k: nat)
    requires WellOrdered(all) && IsRun(all, runs) && k < |runs|
    ensures var row := runs[k].row;
            && StagesInOrder(ProgressOf(row).stages)
            && row.processedRecords == TotalProcessed(ProgressOf(row).stages)
            && (row.status == MigrationInProgress ==> HighestCompleted(row))
            && (row.status == MigrationCompleted <==> runs[k].position == Done)
            && (row.status == MigrationFailed <==> runs[k].position == Broke)
    ensures runs[k].position == Done ==> AllCompleted(all, ProgressOf(runs[k].row).stages)
  {
    RunsKeepInv(all, runs, k);
    InvMeansOrdered(all, runs[k]);
  }

  /** All stages of the migration are there, and completed. */
  ghost predicate AllCompleted(all: seq<Stage>, stages: seq<Stage>) {
    SameStages(all, stages) && forall i :: 0 <= i < |all| ==> stages[i].status == Completed
  }

  lemma InvMeansOrdered(all: seq<Stage>, r: Run)
    requires WellOrdered(all) && RunInv(all, r)
    ensures StagesInOrder(ProgressOf(r.row).stages)
    ensures r.row.status == MigrationInProgress ==> HighestCompleted(r.row)
    ensures r.position.Done? <==> r.row.status == MigrationCompleted
    ensures r.position.Broke? <==> r.row.status == MigrationFailed
  {
    var stages := ProgressOf(r.row).stages;
    match r.position {
      case Between(i) => assert i > 0 ==> SameStage(stages[i - 1], all[i - 1]);
      case Inside(i) => assert i > 0 ==> SameStage(stages[i - 1], all[i - 1]);
      case Done => assert Staircase(stages, |stages|);
      case Broke =>
    }
  }

  ghost predicate CurrentCompleted(row: Row) {
    var i := FindCurrent(ProgressOf(row));
    i < |ProgressOf(row).stages| && ProgressOf(row).stages[i].status == Completed
  }

  /** The failure turned completed stage i into the failed one, and the row still names it as
      the last completed stage. */
  ghost predicate CompletedStageFailed(all: seq<Stage>, row: Row, row': Row, i: nat) {
    && i < |all| && |ProgressOf(row).stages| == |ProgressOf(row').stages| == |all|
    && ProgressOf(row).stages[i].status == Completed
    && ProgressOf(row').stages[i] == ProgressOf(row).stages[i].(status := Failed)
    && row'.lastCompletedStage == Some(all[i].displayName)
  }

  /** Recording a failure keeps the last completed stage correct exactly if the current stage
      was not completed. It is completed exactly between two stages and after the last one; an
      exception there turns the stage before it into the failed one. */
  lemma FailureKeepsLastCompleted(all: seq<Stage>, runs: seq<Run>, k: nat, error: string)
    requires WellOrdered(all) && IsRun(all, runs) && k < |runs| && (runs[k].position.Between? || runs[k].position.Inside?)
    ensures var row' := Broken(runs[k].row, error);
            row'.lastCompletedStage == LastCompleted(ProgressOf(row').stages) <==> !CurrentCompleted(runs[k].row)
    ensures CurrentCompleted(runs[k].row) <==> runs[k].position.Between? && runs[k].position.next > 0
    ensures CurrentCompleted(runs[k].row) ==>
              CompletedStageFailed(all, runs[k].row, Broken(runs[k].row, error), runs[k].position.next - 1)
  {
    RunsKeepInv(all, runs, k);
    FailureNames(all, runs[k], error);
    FailureStrikes(all, runs[k], error);
  }

  lemma FailureStrikes(all: seq<Stage>, r: Run, error: string)
    requires WellOrdered(all) && RunInv(all, r) && (r.position.Between? || r.position.Inside?)
    ensures CurrentCompleted(r.row) <==> r.position.Between? && r.position.next > 0
    ensures r.position.Between? && r.position.next > 0 ==>
              CompletedStageFailed(all, r.row, Broken(r.row, error), r.position.next - 1)
  {
    CurrentStage(all, r.row, if r.position.Between? then r.position.next else r.position.stage);
  }

  lemma FailureNames(all: seq<Stage>, r: Run, error: string)
    requires WellOrdered(all) && RunInv(all, r) && (r.position.Between? || r.position.Inside?)
    ensures var row' := Broken(r.row, error);
            row'.lastCompletedStage == LastCompleted(ProgressOf(row').stages) <==> !CurrentCompleted(r.row)
  {
    FailBreaks(all, r, error);
    var row' := Broken(r.row, error);
    StaircaseLastCompleted(all, ProgressOf(row').stages, TopAfterFailure(r.position));
    match r.position {
      case Between(i) =>
        CurrentStage(all, r.row, i);
        if i > 1 {
          assert Before(all[i - 2], all[i - 1]);
        }
      case Inside(i) =>
        CurrentStage(all, r.row, i);
    }
  }

  lemma OneMore(all: seq<Stage>, runs: seq<Run>, call: Call, r: Run)
    requires IsRun(all, runs) && Next(all, runs[|runs| - 1], call, r)
    ensures IsRun(all, runs + [r])
  {
    assert Steps(all, runs[|runs| - 1], r);
  }

  /** From the end of a run, one call on stage i, which always exists. */
  lemma MarkRun(all: seq<Stage>, runs: seq<Run>, i: nat, status: StageStatus, position: Position) returns (runs': seq<Run>)
    requires WellOrdered(all) && IsRun(all, runs) && i < |all|
    requires var last := runs[|runs| - 1].position;
             || (status == InProgress && last == Between(i) && position == Inside(i))
             || (status == Completed && last == Inside(i) && position == Between(i + 1))
    ensures IsRun(all, runs') && runs'[|runs'| - 1].position == position
  {
    var r := runs[|runs| - 1];
    RunsKeepInv(all, runs, |runs| - 1);
    FindSame(all, r.row.progress.value.stages, i);
    var r' := Run(position, StageMarked(r.row, all[i].id, status, 0, None).value, None);
    OneMore(all, runs, if status == InProgress then StartStage(None) else CompleteStage(0, None), r');
    runs' := runs + [r'];
  }

  /** Some run stands between any two stages. */
  lemma {:induction false} ReachingRun(all: seq<Stage>, host: string, n: nat) returns (runs: seq<Run>)
    requires WellOrdered(all) && n <= |all|
    ensures IsRun(all, runs) && runs[|runs| - 1].position == Between(n)
  {
    if n == 0 {
      runs := [Begun(all, host)];
    } else {
      runs := ReachingRun(all, host, n - 1);
      runs := MarkRun(all, runs, n - 1, InProgress, Inside(n - 1));
      runs := MarkRun(all, runs, n - 1, Completed, Between(n));
    }
  }

  /** For each stage: a run that fails right after it. Its row has the stage failed, and still names
      it as the last completed one, which it is not. */
  lemma StaleRun(all: seq<Stage>, host: string, i: nat, error: string) returns (runs: seq<Run>)
    requires WellOrdered(all) && i < |all|
    ensures IsRun(all, runs) && runs[|runs| - 1].position.Broke?
    ensures var row := runs[|runs| - 1].row;
            && |ProgressOf(row).stages| == |all| && ProgressOf(row).stages[i].status == Failed
            && row.lastCompletedStage == Some(all[i].displayName) != LastCompleted(ProgressOf(row).stages)
  {
    var reached := ReachingRun(all, host, i + 1);
    var r := reached[|reached| - 1];
    FailureKeepsLastCompleted(all, reached, |reached| - 1, error);
    OneMore(all, reached, Fail(error), Run(Broke, Broken(r.row, error), None));
    runs := reached + [Run(Broke, Broken(r.row, error), None)];
  }

  /** What a reader of the snapshot sees during a run: the live overlay never shows fewer
      records than are stored, never touches a completed stage, and still shows the stages in
      order with the same stages completed. */
  lemma SnapshotInRun(all: seq<Stage>, runs: seq<Run>, k: nat, now: int)
    requires WellOrdered(all) && IsRun(all, runs) && k < |runs|
    ensures var stored := ProgressOf(runs[k].row).stages;
            var shown := Overlaid(runs[k].row.status, ProgressOf(runs[k].row), runs[k].live, now).stages;
            && StagesInOrder(shown) && |shown| == |stored|
            && forall i :: 0 <= i < |stored| ==>
                 && shown[i].processed >= stored[i].processed
                 && (stored[i].status == Completed <==> shown[i].status == Completed)
                 && (stored[i].status == Completed ==> shown[i] == stored[i])
  {
    RunsKeepInv(all, runs, k);
    InvMeansOrdered(all, runs[k]);
    OverlayKeepsOrder(all, runs[k], now);
  }

  lemma OverlayKeepsOrder(all: seq<Stage>, r: Run, now: int)
    requires WellOrdered(all) && RunInv(all, r) && StagesInOrder(ProgressOf(r.row).stages)
    ensures var stored := ProgressOf(r.row).stages;
            var shown := Overlaid(r.row.status, ProgressOf(r.row), r.live, now).stages;
            && StagesInOrder(shown) && |shown| == |stored|
            && forall i :: 0 <= i < |stored| ==>
                 && shown[i].processed >= stored[i].processed
                 && (stored[i].status == Completed <==> shown[i].status == Completed)
                 && (stored[i].status == Completed ==> shown[i] == stored[i])
  {
    var stored := ProgressOf(r.row).stages;
    var shown := Overlaid(r.row.status, ProgressOf(r.row), r.live, now).stages;
    if shown != stored {
      var i := r.position.stage;
      FindSame(all, stored, i);
      assert Replaced(stored, i, InProgress, shown);
      assert Staircase(shown, i);
    }
  }
}
