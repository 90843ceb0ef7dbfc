/**
 API hosts competing for the rotation of one pair of secrets
 (src/api/Fig.Api/Services/EncryptionMigrationService.cs:72-100,
 src/api/Fig.Api/Services/ApiSecretRotationStateService.cs:72-80, 143-181, 297-359).

 Access to the row is serialised: each step reads and writes it in one transaction.
 */
module RotationHosts {
  import opened Text
  import opened RotationState

  type Host = string

  datatype Event =
    | Start(host: Host)                  // MarkMigrationStarted returns
    | Refused(host: Host)                // MarkMigrationStarted throws
    | Prepare(host: Host)                // InitializeMigrationProgress
    | Work(host: Host, stageId: string, status: StageStatus, processed: int, total: Option<int>)
    | Complete(host: Host)               // MarkMigrationCompleted
    | Fail(host: Host, error: string)    // MarkMigrationFailed
    | Vanish(host: Host)                 // the process dies, or its exception is never recorded

  /** The row, and the hosts between a successful start and the end of their migration. */
  datatype State = State(row: Option<Row>, migrating: set<Host>)

  const INITIAL := State(None, {})

  ghost predicate Next(all: seq<Stage>, s: State, event: Event, s': State) {
    match event
    case Start(host) =>
      StatusOf(s.row) != MigrationInProgress && s' == State(Some(Started(host)), s.migrating + {host})
    case Refused(host) =>
      StatusOf(s.row) == MigrationInProgress && s' == s
    case Prepare(host) =>
      host in s.migrating && s.row.Some? && s' == s.(row := Some(Initialized(s.row.value, all)))
    case Work(host, stageId, status, processed, total) =>
      host in s.migrating && s.row.Some? && StageMarked(s.row.value, stageId, status, processed, total).Some?
      && s' == s.(row := StageMarked(s.row.value, stageId, status, processed, total))
    case Complete(host) =>
      host in s.migrating && s.row.Some? && s' == State(Some(Finished(s.row.value)), s.migrating - {host})
    case Fail(host, error) =>
      host in s.migrating && s.row.Some? && s' == State(Some(Broken(s.row.value, error)), s.migrating - {host})
    case Vanish(host) =>
      host in s.migrating && s' == s.(migrating := s.migrating - {host})
  }

  /** A run of any number of hosts: each event leads from one state to the next. */
  ghost predicate IsRun(all: seq<Stage>, states: seq<State>, events: seq<Event>) {
    && |states| == |events| + 1
    && states[0] == INITIAL
    && forall k :: 0 <= k < |events| ==> Next(all, states[k], events[k], states[k + 1])
  }

  predicate Decides(event: Event) {
    event.Start? || event.Complete? || event.Fail?
  }

  /** Among the first k events, the last start, completion or recorded failure is a completion. */
  predicate LastDecisionCompletes(events: seq<Event>, k: nat)
    requires k <= |events|
  {
    k > 0 && if Decides(events[k - 1]) then events[k - 1].Complete? else LastDecisionCompletes(events, k - 1)
  }

  /** The host that a row in progress names. */
  function Owner(row: Option<Row>): set<Host> {
    if StatusOf(row) == MigrationInProgress && row.Some? then {row.value.host} else {}
  }

  /** Whoever migrates is the owner of the row. */
  ghost predicate HostInv(s: State) {
    s.migrating <= Owner(s.row)
  }

  lemma MarkKeepsOwner(row: Row, stageId: string, status: StageStatus, processed: int, total: Option<int>, row': Row)
    requires StageMarked(row, stageId, status, processed, total) == Some(row')
    ensures row'.status == row.status && row'.host == row.host
  {
  }

  lemma PrepareKeepsOwner(row: Row, stages: seq<Stage>)
    ensures Initialized(row, stages).status == row.status && Initialized(row, stages).host == row.host
  {
  }

  /** Stage operations and the preparation change neither status nor host. */
  lemma WorkKeepsOwner(all: seq<Stage>, s: State, event: Event, s': State)
    requires Next(all, s, event, s') && (event.Work? || event.Prepare?)
    ensures StatusOf(s'.row) == StatusOf(s.row) && Owner(s'.row) == Owner(s.row) && s'.migrating == s.migrating
  {
    if event.Work? {
      MarkKeepsOwner(s.row.value, event.stageId, event.status, event.processed, event.total, s'.row.value);
    } else {
      PrepareKeepsOwner(s.row.value, all);
    }
  }

  lemma StepKeepsHostInv(all: seq<Stage>, s: State, event: Event, s': State)
    requires HostInv(s) && Next(all, s, event, s')
    ensures HostInv(s')
  {
    if event.Work? || event.Prepare? {
      WorkKeepsOwner(all, s, event, s');
    } else if event.Start? {
      assert s.migrating == {};
    } else if event.Complete? || event.Fail? {
      assert s.migrating == {event.host};
      assert s'.migrating == {};
    }
  }

  lemma {:induction false} RunsKeepHostInv(all: seq<Stage>, states: seq<State>, events: seq<Event>, k: nat)
    requires IsRun(all, states, events) && k < |states|
    ensures HostInv(states[k])
  {
    if k > 0 {
      RunsKeepHostInv(all, states, events, k - 1);
      StepKeepsHostInv(all, states[k - 1], events[k - 1], states[k]);
    }
  }

  /** In every state of every run at most one host is migrating, the row names it, and readers
      prefer the previous secret. */
  lemma OneHostMigrates(all: seq<Stage>, states: seq<State>, events: seq<Event>, k: nat, a: Host, b: Host)
    requires IsRun(all, states, events) && k < |states| && a in states[k].migrating && b in states[k].migrating
    ensures a == b
    ensures states[k].row.Some? && states[k].row.value.host == a && KeyOrderOf(states[k].row) == PreviousThenCurrent
  {
    RunsKeepHostInv(all, states, events, k);
    assert a in Owner(states[k].row) && b in Owner(states[k].row);
  }

  lemma StepDecides(all: seq<Stage>, s: State, event: Event, s': State)
    requires Next(all, s, event, s')
    ensures KeyOrderOf(s'.row) == CurrentThenPrevious <==>
              if Decides(event) then event.Complete? else KeyOrderOf(s.row) == CurrentThenPrevious
  {
    if event.Work? || event.Prepare? {
      WorkKeepsOwner(all, s, event, s');
    }
  }

  /** Readers prefer the current secret exactly if the last decision about the rotation was
      that a migration completed: a later attempt takes the preference back until it ends. */
  lemma {:induction false} KeyOrderFollowsEvents(all: seq<Stage>, states: seq<State>, events: seq<Event>, k: nat)
    requires IsRun(all, states, events) && k < |states|
    ensures KeyOrderOf(states[k].row) == CurrentThenPrevious <==> LastDecisionCompletes(events, k)
  {
    if k > 0 {
      KeyOrderFollowsEvents(all, states, events, k - 1);
      StepDecides(all, states[k - 1], events[k - 1], states[k]);
    }
  }

  ghost predicate Blocked(s: State) {
    StatusOf(s.row) == MigrationInProgress && s.migrating == {}
  }

  /** A host that vanishes while it migrates leaves the rotation in progress for good: from then
      on the state never changes, and every start is refused. */
  lemma {:induction false} VanishBlocksForever(all: seq<Stage>, states: seq<State>, events: seq<Event>, k: nat, j: nat)
    requires IsRun(all, states, events) && k < j < |states| && events[k].Vanish?
    ensures Blocked(states[j]) && states[j] == states[k + 1]
    ensures j < |events| ==> events[j].Refused?
  {
    if j == k + 1 {
      RunsKeepHostInv(all, states, events, k);
      assert Next(all, states[k], events[k], states[j]);
      assert states[k].migrating == {events[k].host};
      assert states[j].migrating == {};
    } else {
      VanishBlocksForever(all, states, events, k, j - 1);
      assert Next(all, states[j - 1], events[j - 1], states[j]);
    }
    if j < |events| {
      assert Next(all, states[j], events[j], states[j + 1]);
    }
  }

  predicate Vanished(events: seq<Event>, k: nat)
    requires k <= |events|
  {
    exists j :: 0 <= j < k && events[j].Vanish?
  }

  /** While no host has vanished, the owner of a row in progress is still at work. */
  lemma {:induction false} OwnerMigrates(all: seq<Stage>, states: seq<State>, events: seq<Event>, k: nat)
    requires IsRun(all, states, events) && k < |states| && !Vanished(events, k)
    ensures states[k].migrating == Owner(states[k].row)
  {
    if k > 0 {
      var s, event, s' := states[k - 1], events[k - 1], states[k];
      OwnerMigrates(all, states, events, k - 1);
      assert Next(all, s, event, s') && !event.Vanish?;
      if event.Work? || event.Prepare? {
        WorkKeepsOwner(all, s, event, s');
      } else if event.Start? {
        assert s.migrating == {} && Owner(s'.row) == {event.host};
      } else if event.Complete? || event.Fail? {
        assert s.migrating == {event.host} && Owner(s'.row) == {};
      }
    }
  }

  /** A rotation is in progress with nobody at work exactly if some host has vanished before. */
  lemma BlockedExactlyIfVanished(all: seq<Stage>, states: seq<State>, events: seq<Event>, k: nat)
    requires IsRun(all, states, events) && k < |states|
    ensures Blocked(states[k]) <==> Vanished(events, k)
  {
    if Vanished(events, k) {
      var j :| 0 <= j < k && events[j].Vanish?;
      VanishBlocksForever(all, states, events, j, k);
    } else {
      OwnerMigrates(all, states, events, k);
    }
  }

  /** It takes one start: every host can block the rotation. */
  lemma VanishingRun(all: seq<Stage>, host: Host) returns (states: seq<State>, events: seq<Event>)
    ensures IsRun(all, states, events) && events == [Start(host), Vanish(host)]
    ensures Blocked(states[2])
  {
    var started := State(Some(Started(host)), {host});
    var blocked := State(Some(Started(host)), {});
    assert INITIAL.migrating + {host} == {host} && started.migrating - {host} == {};
    assert Next(all, INITIAL, Start(host), started);
    assert Next(all, started, Vanish(host), blocked);
    states, events := [INITIAL, started, blocked], [Start(host), Vanish(host)];
  }
}
