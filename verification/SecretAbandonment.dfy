/**
 Secrets that exist without a version: when a creation in two steps leaves one behind, in the step
 system of SecretAgreement.
 */
module SecretAbandonment {
  import opened Text
  import opened SecretAgreement

  /** The secret exists without a version, and no thread is about to add one. */
  ghost predicate Abandoned(s: State, key: string) {
    && key in s.store && s.store[key] == []
    && forall t :: PcOf(s, t).Adding? ==> SecretKey(PcOf(s, t).name) != key
  }

  lemma MoveAddsNothing(config: Config, first: Store, s: State, event: Event, s': State, t: Thread)
    requires CachesRight(s) && PcsRight(first, s) && Next(config, s, event, s') && IsMove(event)
    ensures PcOf(s', t).Adding? ==> PcOf(s', t) == PcOf(s, t)
  {
    var pc' := MoveOf(config, s, event, s');
    assert PcRight(first, s.store, PcOf(s, event.t));
    MovesRight(config, first, s, event, event.t, pc');
    assert s'.pcs == s.pcs[event.t := pc'];
  }

  lemma OtherStepAddsNothing(config: Config, s: State, event: Event, s': State, t: Thread)
    requires Next(config, s, event, s') && !IsMove(event) && !event.Create?
    ensures PcOf(s', t).Adding? ==> PcOf(s', t) == PcOf(s, t)
  {
  }

  lemma CreateAdds(config: Config, s: State, event: Event, s': State, t: Thread)
    requires Next(config, s, event, s') && event.Create?
    ensures PcOf(s', t).Adding? ==> PcOf(s', t) == PcOf(s, t) || SecretKey(PcOf(s', t).name) !in s.store
  {
  }

  /** A thread starts to add a version only by creating a secret that was absent. */
  lemma NewAdder(config: Config, first: Store, s: State, event: Event, s': State, t: Thread)
    requires Inv(first, s) && Next(config, s, event, s') && PcOf(s', t).Adding?
    ensures PcOf(s', t) == PcOf(s, t) || SecretKey(PcOf(s', t).name) !in s.store
  {
    if event.Create? {
      CreateAdds(config, s, event, s', t);
    } else if IsMove(event) {
      MoveAddsNothing(config, first, s, event, s', t);
    } else {
      OtherStepAddsNothing(config, s, event, s', t);
    }
  }

  lemma AbandonedStore(config: Config, s: State, event: Event, s': State, key: string)
    requires Next(config, s, event, s') && Abandoned(s, key)
    ensures key in s'.store && s'.store[key] == []
  {
  }

  lemma StepKeepsAbandoned(config: Config, first: Store, s: State, event: Event, s': State, key: string)
    requires Inv(first, s) && Next(config, s, event, s') && Abandoned(s, key)
    ensures Abandoned(s', key)
  {
    AbandonedStore(config, s, event, s', key);
    forall t | PcOf(s', t).Adding? ensures SecretKey(PcOf(s', t).name) != key {
      NewAdder(config, first, s, event, s', t);
    }
  }

  /** A two-step creation whose second step is lost leaves the key unusable for good: no call for
      it ever returns again, whoever makes it. */
  lemma {:induction false} AbandonedForever(config: Config, states: seq<State>, events: seq<Event>, i: nat, j: nat, key: string)
    requires IsRun(config, states, events) && i <= j < |states| && Abandoned(states[i], key)
    ensures Abandoned(states[j], key)
    ensures forall t :: PcOf(states[j], t).Returned? ==> SecretKey(PcOf(states[j], t).name) != key
  {
    RunsKeepInv(config, states, events, j);
    forall t | PcOf(states[j], t).Returned? ensures Abandoned(states[j], key) ==> SecretKey(PcOf(states[j], t).name) != key {
      assert PcRight(states[0].store, states[j].store, PcOf(states[j], t));
    }
    if i < j {
      AbandonedForever(config, states, events, i, j - 1, key);
      RunsKeepInv(config, states, events, j - 1);
      StepKeepsAbandoned(config, states[0].store, states[j - 1], events[j - 1], states[j], key);
    }
  }

  ghost predicate AllHaveVersions(store: Store) {
    forall key :: key in store ==> store[key] != []
  }

  /** With one-step creation no secret is ever without a version. */
  lemma {:induction false} OneStepNeverAbandons(config: Config, states: seq<State>, events: seq<Event>, k: nat)
    requires IsRun(config, states, events) && k < |states| && !config.twoSteps && AllHaveVersions(states[0].store)
    ensures AllHaveVersions(states[k].store)
  {
    if k > 0 {
      OneStepNeverAbandons(config, states, events, k - 1);
      assert Next(config, states[k - 1], events[k - 1], states[k]);
    }
  }

  /** The second step of a creation is lost: the first one takes effect behind a transient error,
      or the second one fails without an effect, or the process dies between the two. */
  ghost predicate LosesSecondStep(config: Config, s: State, event: Event, key: string) {
    match event
    case Create(t, reply) =>
      var pc := PcOf(s, t);
      config.twoSteps && pc.Creating? && SecretKey(pc.name) == key && key !in s.store && reply == TransientAfterEffect
    case AddVersion(t, reply) =>
      PcOf(s, t).Adding? && SecretKey(PcOf(s, t).name) == key && !TakesEffect(reply)
    case Crash(process) =>
      exists t: Thread :: t.process == process && PcOf(s, t).Adding? && SecretKey(PcOf(s, t).name) == key
    case _ => false
  }

  lemma OthersStay(config: Config, s: State, event: Event, s': State, t: Thread)
    requires Next(config, s, event, s') && !event.Crash? && event.t != t
    ensures PcOf(s', t) == PcOf(s, t)
  {
    if IsMove(event) {
      var pc' := MoveOf(config, s, event, s');
      assert s'.pcs == s.pcs[event.t := pc'];
    }
  }

  /** An adder leaves its place by adding the version, by failing to, or by dying. */
  lemma AdderLeaves(config: Config, s: State, event: Event, s': State, t: Thread)
    requires Next(config, s, event, s') && PcOf(s, t).Adding? && PcOf(s', t) != PcOf(s, t)
    ensures event == Crash(t.process) || (event.AddVersion? && event.t == t)
  {
    if event.Crash? {
      assert s' == AfterCrash(s, event.process);
    } else if event.t != t {
      OthersStay(config, s, event, s', t);
    } else if IsMove(event) {
      var pc' := MoveOf(config, s, event, s');
    }
  }

  lemma AbandonedByLoss(config: Config, first: Store, s: State, event: Event, s': State, key: string)
    requires Inv(first, s) && Next(config, s, event, s') && Abandoned(s', key) && !Abandoned(s, key)
    ensures LosesSecondStep(config, s, event, key)
  {
    if key in s.store {
      StepGrows(config, first, s, event, s');
      var t :| PcOf(s, t).Adding? && SecretKey(PcOf(s, t).name) == key;
      AdderLeaves(config, s, event, s', t);
    } else {
      assert event.Create?;
      var pc := PcOf(s, event.t);
      assert PcOf(s', event.t) == AfterCreate(config, s.store, pc, event.reply);
    }
  }

  lemma LossAbandons(config: Config, first: Store, s: State, event: Event, s': State, key: string)
    requires Inv(first, s) && Next(config, s, event, s') && LosesSecondStep(config, s, event, key)
    ensures Abandoned(s', key)
  {
    if event.Create? {
      forall t | PcOf(s', t).Adding? ensures SecretKey(PcOf(s', t).name) != key {
        assert PcRight(first, s.store, PcOf(s, t));
      }
    } else {
      var t :| PcOf(s, t).Adding? && SecretKey(PcOf(s, t).name) == key && (event == Crash(t.process) || (event.AddVersion? && event.t == t));
      assert PcRight(first, s.store, PcOf(s, t));
      forall u | PcOf(s', u).Adding? ensures SecretKey(PcOf(s', u).name) != key {
        NewAdder(config, first, s, event, s', u);
        assert PcOf(s', u) == PcOf(s, u) ==> u != t;
      }
    }
  }

  ghost predicate SecondStepLost(config: Config, states: seq<State>, events: seq<Event>, k: nat, key: string)
    requires k <= |events| < |states|
  {
    exists j :: 0 <= j < k && LosesSecondStep(config, states[j], events[j], key)
  }

  /** In every run: a secret is without a version for good exactly if it was so at first or the
      second step of its creation was lost. */
  lemma {:induction false} AbandonedExactlyIfLost(config: Config, states: seq<State>, events: seq<Event>, k: nat, key: string)
    requires IsRun(config, states, events) && k < |states|
    ensures Abandoned(states[k], key) <==>
              (key in states[0].store && states[0].store[key] == []) || SecondStepLost(config, states, events, k, key)
  {
    if k > 0 {
      var first, s, event, s' := states[0].store, states[k - 1], events[k - 1], states[k];
      AbandonedExactlyIfLost(config, states, events, k - 1, key);
      RunsKeepInv(config, states, events, k - 1);
      assert SecondStepLost(config, states, events, k, key) <==>
          SecondStepLost(config, states, events, k - 1, key) || LosesSecondStep(config, s, event, key);
      if Abandoned(s, key) {
        StepKeepsAbandoned(config, first, s, event, s', key);
      } else if LosesSecondStep(config, s, event, key) {
        LossAbandons(config, first, s, event, s', key);
      } else if Abandoned(s', key) {
        AbandonedByLoss(config, first, s, event, s', key);
      }
    }
  }

  /** The places behind the decision to create. */
  predicate Creates(pc: Pc) {
    pc.Looping? || pc.Creating? || pc.Adding? || pc.Verifying? || pc.ReadingExisting?
  }

  ghost predicate CreatorsAllowed(config: Config, s: State) {
    forall t :: Creates(PcOf(s, t)) ==> config.autoCreate(t.process)
  }

  lemma MovesKeepCreatorsAllowed(config: Config, s: State, event: Event, t: Thread, pc': Pc)
    requires Moves(config, s, event, t, pc') && Creates(pc')
    ensures Creates(PcOf(s, t)) || config.autoCreate(t.process)
  {
  }

  lemma OtherStepKeepsCreator(config: Config, s: State, event: Event, s': State, t: Thread)
    requires Next(config, s, event, s') && !IsMove(event) && !event.Crash? && event.t == t && Creates(PcOf(s', t))
    ensures Creates(PcOf(s, t))
  {
  }

  lemma StepKeepsCreatorsAllowed(config: Config, s: State, event: Event, s': State)
    requires CreatorsAllowed(config, s) && Next(config, s, event, s')
    ensures CreatorsAllowed(config, s')
  {
    forall t | Creates(PcOf(s', t)) ensures config.autoCreate(t.process) {
      assert Creates(PcOf(s, t)) ==> config.autoCreate(t.process);
      if event.Crash? {
        assert s' == AfterCrash(s, event.process);
      } else if event.t != t {
        OthersStay(config, s, event, s', t);
      } else if IsMove(event) {
        var pc' := MoveOf(config, s, event, s');
        MovesKeepCreatorsAllowed(config, s, event, t, pc');
      } else {
        OtherStepKeepsCreator(config, s, event, s', t);
      }
    }
  }

  /** Only processes that may create secrets ever get behind that decision. */
  lemma {:induction false} OnlyAllowedCreate(config: Config, states: seq<State>, events: seq<Event>, k: nat)
    requires IsRun(config, states, events) && k < |states|
    ensures CreatorsAllowed(config, states[k])
  {
    if k > 0 {
      OnlyAllowedCreate(config, states, events, k - 1);
      StepKeepsCreatorsAllowed(config, states[k - 1], events[k - 1], states[k]);
    }
  }

  lemma MoveIsStep(config: Config, s: State, event: Event, pc': Pc)
    requires IsMove(event) && Moves(config, s, event, event.t, pc')
    ensures Next(config, s, event, if event.Check? then At(s, event.t, pc') else Goto(s, event.t, pc'))
  {
  }

  lemma RunGoesOn(config: Config, states: seq<State>, events: seq<Event>, event: Event, s': State)
    requires IsRun(config, states, events) && Next(config, states[|events|], event, s')
    ensures IsRun(config, states + [s'], events + [event])
  {
  }

  /** The first look of a call, by a thread that is alone. */
  lemma EnteringRun(config: Config, t: Thread, store: Store, name: string) returns (states: seq<State>, events: seq<Event>)
    ensures IsRun(config, states, events)
    ensures events == [Call(t, name), Check(t)] && states[0].store == store
    ensures states[2] == State(store, map[], map[], map[t := Waiting(name)])
  {
    var s0 := State(store, map[], map[], map[]);
    var s1 := At(s0, t, Entering(name));
    var s2 := At(s1, t, Waiting(name));
    MoveIsStep(config, s0, Call(t, name), Entering(name));
    MoveIsStep(config, s1, Check(t), Waiting(name));
    states, events := [s0, s1, s2], [Call(t, name), Check(t)];
  }

  /** On to the first read, within the semaphore. */
  lemma ReadingRun(config: Config, t: Thread, store: Store, name: string) returns (states: seq<State>, events: seq<Event>)
    ensures IsRun(config, states, events)
    ensures events == [Call(t, name), Check(t), Acquire(t), Recheck(t)] && states[0].store == store
    ensures states[4] == State(store, map[], map[t.process := t], map[t := Reading(name, false)])
  {
    states, events := EnteringRun(config, t, store, name);
    var s2 := states[2];
    var s3 := At(s2, t, Holding(name)).(holders := s2.holders[t.process := t]);
    var s4 := At(s3, t, Reading(name, false));
    RunGoesOn(config, states, events, Acquire(t), s3);
    MoveIsStep(config, s3, Recheck(t), Reading(name, false));
    RunGoesOn(config, states + [s3], events + [Acquire(t)], Recheck(t), s4);
    states, events := states + [s3] + [s4], events + [Acquire(t)] + [Recheck(t)];
  }

  /** On to the head of the retry loop. */
  lemma CreatingRun(config: Config, t: Thread, store: Store, name: string) returns (states: seq<State>, events: seq<Event>)
    requires config.autoCreate(t.process) && SecretKey(name) !in store
    ensures IsRun(config, states, events)
    ensures events == [Call(t, name), Check(t), Acquire(t), Recheck(t), Read(t, Normal)] && states[0].store == store
    ensures states[5] == State(store, map[], map[t.process := t], map[t := Looping(name, 1)])
  {
    states, events := ReadingRun(config, t, store, name);
    var s5 := At(states[4], t, Looping(name, 1));
    MoveIsStep(config, states[4], Read(t, Normal), Looping(name, 1));
    RunGoesOn(config, states, events, Read(t, Normal), s5);
    states, events := states + [s5], events + [Read(t, Normal)];
  }

  /** Over a store without the client's secret, seven steps abandon it: the call that creates the
      empty secret takes effect but reports a transient error. */
  lemma AbandoningRun(config: Config, t: Thread, store: Store, name: string, newSecret: string)
    returns (states: seq<State>, events: seq<Event>)
    requires config.twoSteps && config.autoCreate(t.process) && SecretKey(name) !in store && newSecret != ""
    ensures IsRun(config, states, events) && |events| == 7 && states[0].store == store
    ensures events[6] == Create(t, TransientAfterEffect)
    ensures Abandoned(states[7], SecretKey(name))
  {
    states, events := CreatingRun(config, t, store, name);
    var s5 := states[5];
    var s6 := At(s5, t, Creating(name, 1, newSecret));
    var s7 := At(s6, t, Looping(name, 2)).(store := store[SecretKey(name) := []]);
    MoveIsStep(config, s5, Iterate(t, newSecret), Creating(name, 1, newSecret));
    RunGoesOn(config, states, events, Iterate(t, newSecret), s6);
    RunGoesOn(config, states + [s6], events + [Iterate(t, newSecret)], Create(t, TransientAfterEffect), s7);
    assert s7.pcs == map[t := Looping(name, 2)];
    states, events := states + [s6] + [s7], events + [Iterate(t, newSecret)] + [Create(t, TransientAfterEffect)];
    NobodyAdds(s7, t, name);
  }

  /** A run of one thread whose replies are all normal carries the creation through: from a store
      without the secret to the new secret as its one version, which the call returns. */
  lemma CompletingRun(config: Config, t: Thread, store: Store, name: string, newSecret: string)
    returns (states: seq<State>, events: seq<Event>)
    requires config.autoCreate(t.process) && SecretKey(name) !in store && newSecret != ""
    ensures IsRun(config, states, events) && states[0].store == store
    ensures events == [Call(t, name), Check(t), Acquire(t), Recheck(t), Read(t, Normal), Iterate(t, newSecret), Create(t, Normal)]
                      + (if config.twoSteps then [AddVersion(t, Normal)] else []) + [Verify(t, Normal), Finish(t)]
    ensures var last := states[|events|]; PcOf(last, t) == Returned(name, newSecret) && last.store == store[SecretKey(name) := [newSecret]]
  {
    states, events := CreatingRun(config, t, store, name);
    var s5 := states[5];
    var s6 := At(s5, t, Creating(name, 1, newSecret));
    MoveIsStep(config, s5, Iterate(t, newSecret), Creating(name, 1, newSecret));
    RunGoesOn(config, states, events, Iterate(t, newSecret), s6);
    states, events := StoringRun(config, states + [s6], events + [Iterate(t, newSecret)], t, name, newSecret);
    states, events := VerifyingRun(config, states, events, t, name, newSecret);
  }

  lemma StoringRun(config: Config, before: seq<State>, done: seq<Event>, t: Thread, name: string, newSecret: string)
    returns (states: seq<State>, events: seq<Event>)
    requires IsRun(config, before, done) && PcOf(before[|done|], t) == Creating(name, 1, newSecret) && SecretKey(name) !in before[|done|].store
    ensures IsRun(config, states, events) && states[0] == before[0]
    ensures events == done + [Create(t, Normal)] + if config.twoSteps then [AddVersion(t, Normal)] else []
    ensures var s := states[|events|];
            PcOf(s, t) == Verifying(name, 1, newSecret) && s.store == before[|done|].store[SecretKey(name) := [newSecret]]
  {
    var s, key := before[|done|], SecretKey(name);
    var made := At(s, t, Verifying(name, 1, newSecret)).(store := s.store[key := [newSecret]]);
    if config.twoSteps {
      var empty := At(s, t, Adding(name, 1, newSecret)).(store := s.store[key := []]);
      var added := At(empty, t, Verifying(name, 1, newSecret)).(store := made.store);
      RunGoesOn(config, before, done, Create(t, Normal), empty);
      FirstVersion(s.store, key, newSecret);
      RunGoesOn(config, before + [empty], done + [Create(t, Normal)], AddVersion(t, Normal), added);
      states, events := before + [empty] + [added], done + [Create(t, Normal)] + [AddVersion(t, Normal)];
    } else {
      RunGoesOn(config, before, done, Create(t, Normal), made);
      states, events := before + [made], done + [Create(t, Normal)];
      assert events + [] == events;
    }
  }

  lemma FirstVersion(store: Store, key: string, newSecret: string)
    ensures Added(store[key := []], key, newSecret, Normal) == store[key := [newSecret]]
  {
    var none: seq<string> := [];
    assert none + [newSecret] == [newSecret];
    assert store[key := none][key := [newSecret]] == store[key := [newSecret]];
  }

  lemma VerifyingRun(config: Config, before: seq<State>, done: seq<Event>, t: Thread, name: string, newSecret: string)
    returns (states: seq<State>, events: seq<Event>)
    requires IsRun(config, before, done) && newSecret != ""
    requires var s := before[|done|]; PcOf(s, t) == Verifying(name, 1, newSecret) && Latest(s.store, SecretKey(name)) == Some(newSecret)
    ensures IsRun(config, states, events) && states[0] == before[0] && events == done + [Verify(t, Normal), Finish(t)]
    ensures PcOf(states[|events|], t) == Returned(name, newSecret) && states[|events|].store == before[|done|].store
  {
    var s := before[|done|];
    var s1 := At(s, t, Got(name, newSecret));
    MoveIsStep(config, s, Verify(t, Normal), Got(name, newSecret));
    RunGoesOn(config, before, done, Verify(t, Normal), s1);
    var s2 := Goto(s1, t, Returned(name, newSecret)).(
                caches := s1.caches[t.process := CacheOf(s1, t.process)[name := newSecret]]);
    RunGoesOn(config, before + [s1], done + [Verify(t, Normal)], Finish(t), s2);
    states, events := before + [s1] + [s2], done + [Verify(t, Normal)] + [Finish(t)];
  }

  lemma NobodyAdds(s: State, t: Thread, name: string)
    requires s.pcs == map[t := Looping(name, 2)]
    ensures forall u :: !PcOf(s, u).Adding?
  {
  }

  ghost predicate CanBeAbandoned(config: Config, store: Store, key: string) {
    exists states: seq<State>, events: seq<Event>, k: nat ::
      IsRun(config, states, events) && k < |states| && states[0].store == store && Abandoned(states[k], key)
  }

  /** An abandoned secret that was not there at first takes two steps and a process that creates. */
  lemma AbandonedTakesTwoSteps(config: Config, states: seq<State>, events: seq<Event>, k: nat, key: string)
    requires IsRun(config, states, events) && k < |states| && AllHaveVersions(states[0].store) && Abandoned(states[k], key)
    ensures config.twoSteps && key !in states[0].store && exists p :: config.autoCreate(p)
  {
    if !config.twoSteps {
      OneStepNeverAbandons(config, states, events, k);
    }
    RunsKeepInv(config, states, events, k);
    AbandonedExactlyIfLost(config, states, events, k, key);
    var j: nat :| j < k && LosesSecondStep(config, states[j], events[j], key);
    OnlyAllowedCreate(config, states, events, j);
    var t :| Creates(PcOf(states[j], t));
    assert config.autoCreate(t.process);
  }

  /** Some run makes the key of a client unusable exactly if secrets are created in two steps, some
      process creates them, and the secret is not there yet. */
  lemma CanBeAbandonedExactlyIf(config: Config, store: Store, name: string)
    requires AllHaveVersions(store)
    ensures CanBeAbandoned(config, store, SecretKey(name)) <==>
              config.twoSteps && (exists p :: config.autoCreate(p)) && SecretKey(name) !in store
  {
    if CanBeAbandoned(config, store, SecretKey(name)) {
      var states: seq<State>, events: seq<Event>, k: nat :|
        IsRun(config, states, events) && k < |states| && states[0].store == store && Abandoned(states[k], SecretKey(name));
      AbandonedTakesTwoSteps(config, states, events, k, SecretKey(name));
    }
    if config.twoSteps && (exists p :: config.autoCreate(p)) && SecretKey(name) !in store {
      var p :| config.autoCreate(p);
      var states, events := AbandoningRun(config, Thread(p, 0), store, name, "s");
    }
  }
}
