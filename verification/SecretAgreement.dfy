/**
 Creating a client secret in a cloud store from several processes
 (src/client/Fig.Client.SecretProvider.Google/GoogleSecretProvider.cs:40-223,
 src/client/Fig.Client.SecretProvider.Aws/AwsSecretProvider.cs:33-180 and
 src/client/Fig.Client.Contracts/ClientSecretProviderBase.cs:39-58), as a step system.

 Every call to the store is a step of its own and can fail; a transient error may come before or
 after the call took effect. The store creates a secret only if it is absent, and never loses one.
 Google creates in two steps, an empty secret and then its first version; AWS in one.
 */
module SecretAgreement {
  import opened Text

  // ----- the store

  /** The versions of each secret, oldest first. */
  type Store = map<string, seq<string>>

  function WithoutSpaces(s: string): string {
    if s == [] then [] else (if s[0] == ' ' then [] else [s[0]]) + WithoutSpaces(s[1..])
  }

  /** The key of a client's secret; several client names can share it. */
  function SecretKey(clientName: string): string {
    "FIG_" + Fold(WithoutSpaces(clientName)) + "_SECRET"
  }

  /** Spaces in the client's name, and the case of its letters, do not matter. */
  lemma {:induction false} KeyIgnoresSpaces(a: string, b: string)
    ensures SecretKey(a + " " + b) == SecretKey(a + b)
    ensures ' ' !in a ==> SecretKey(a) == "FIG_" + Fold(a) + "_SECRET"
    ensures WithoutSpaces(a + " " + b) == WithoutSpaces(a + b) && (' ' !in a ==> WithoutSpaces(a) == a)
  {
    if a == "" {
      assert a + " " + b == " " + b && a + b == b;
    } else {
      KeyIgnoresSpaces(a[1..], b);
      assert (a + " " + b)[1..] == a[1..] + " " + b && (a + b)[1..] == a[1..] + b;
      assert a == [a[0]] + a[1..];
    }
  }

  /** The latest version; None stands for the not-found error. */
  function Latest(store: Store, key: string): Option<string> {
    if key in store && store[key] != [] then Some(store[key][|store[key]| - 1]) else None
  }

  // ----- threads

  datatype Thread = Thread(process: nat, id: nat)

  datatype Fault = SecretNotFound | GaveUp | Uncaught | Unexpected

  const MAX_RETRIES := 3

  datatype Pc =
    | Idle
    | Entering(name: string)                                 // before the first look into the cache
    | Waiting(name: string)                                  // for the semaphore
    | Holding(name: string)                                  // before the second look
    | Reading(name: string, again: bool)
    | Looping(name: string, attempt: nat)                    // at the head of the retry loop
    | Creating(name: string, attempt: nat, newSecret: string)
    | Adding(name: string, attempt: nat, newSecret: string)  // the secret exists, its version does not
    | Verifying(name: string, attempt: nat, newSecret: string)
    | ReadingExisting(name: string, attempt: nat)
    | Got(name: string, value: string)                       // before the value is cached
    | Returned(name: string, value: string)
    | Threw(name: string, fault: Fault)

  datatype Reply = Normal | Transient | TransientAfterEffect | OtherError

  datatype Event =
    | Call(t: Thread, name: string)
    | Check(t: Thread)
    | Acquire(t: Thread)
    | Recheck(t: Thread)
    | Read(t: Thread, reply: Reply)
    | Iterate(t: Thread, newSecret: string)
    | Create(t: Thread, reply: Reply)
    | AddVersion(t: Thread, reply: Reply)
    | Verify(t: Thread, reply: Reply)
    | ReadExisting(t: Thread, reply: Reply)
    | Finish(t: Thread)
    | Crash(process: nat)

  datatype State = State(store: Store, caches: map<nat, map<string, string>>, holders: map<nat, Thread>, pcs: map<Thread, Pc>)

  /** Whether the provider creates in two steps, and which processes create secrets at all. */
  datatype Config = Config(twoSteps: bool, autoCreate: nat -> bool)

  function PcOf(s: State, t: Thread): Pc {
    if t in s.pcs then s.pcs[t] else Idle
  }

  function CacheOf(s: State, process: nat): map<string, string> {
    if process in s.caches then s.caches[process] else map[]
  }

  function At(s: State, t: Thread, pc: Pc): State {
    s.(pcs := s.pcs[t := pc])
  }

  /** A thread moves on; one that returns or throws releases the semaphore of its process. */
  function Goto(s: State, t: Thread, pc: Pc): State {
    if pc.Returned? || pc.Threw? then
      At(s, t, pc).(holders := map p | p in s.holders && p != t.process :: s.holders[p])
    else At(s, t, pc)
  }

  // ----- where a thread goes

  /** A usable value is taken, otherwise the thread goes on as given. */
  function Take(name: string, value: Option<string>, otherwise: Pc): Pc {
    if value.Some? && value.value != "" then Got(name, value.value) else otherwise
  }

  /** The end of an iteration: give up after the last attempt. */
  function NextAttempt(name: string, attempt: nat): Pc {
    if attempt == MAX_RETRIES then Threw(name, GaveUp) else Looping(name, attempt + 1)
  }

  /** A transient error is retried before the last attempt and not caught in it. */
  function Retry(name: string, attempt: nat): Pc {
    if attempt < MAX_RETRIES then Looping(name, attempt + 1) else Threw(name, Uncaught)
  }

  function NotThere(config: Config, t: Thread, name: string): Pc {
    if config.autoCreate(t.process) then Looping(name, 1) else Threw(name, SecretNotFound)
  }

  function AfterRead(config: Config, store: Store, t: Thread, pc: Pc, reply: Reply): Pc
    requires pc.Reading?
  {
    match reply
    case Normal => Take(pc.name, Latest(store, SecretKey(pc.name)), NotThere(config, t, pc.name))
    case OtherError => Threw(pc.name, Uncaught)
    case _ => if pc.again then Threw(pc.name, Uncaught) else Reading(pc.name, true)
  }

  function AfterIterate(pc: Pc, newSecret: string): Pc
    requires pc.Looping?
  {
    if pc.attempt <= MAX_RETRIES then Creating(pc.name, pc.attempt, newSecret) else Threw(pc.name, Unexpected)
  }

  function AfterCreate(config: Config, store: Store, pc: Pc, reply: Reply): Pc
    requires pc.Creating?
  {
    match reply
    case Normal =>
      if SecretKey(pc.name) in store then ReadingExisting(pc.name, pc.attempt)
      else if config.twoSteps then Adding(pc.name, pc.attempt, pc.newSecret)
      else Verifying(pc.name, pc.attempt, pc.newSecret)
    case OtherError => Threw(pc.name, Uncaught)
    case _ => Retry(pc.name, pc.attempt)
  }

  function AfterAdd(pc: Pc, reply: Reply): Pc
    requires pc.Adding?
  {
    match reply
    case Normal => Verifying(pc.name, pc.attempt, pc.newSecret)
    case OtherError => Threw(pc.name, Uncaught)
    case _ => Retry(pc.name, pc.attempt)
  }

  function AfterVerify(store: Store, pc: Pc, reply: Reply): Pc
    requires pc.Verifying?
  {
    var value := Latest(store, SecretKey(pc.name));
    match reply
    case Normal => if value.None? then Threw(pc.name, Uncaught) else Take(pc.name, value, NextAttempt(pc.name, pc.attempt))
    case OtherError => Threw(pc.name, Uncaught)
    case _ => Retry(pc.name, pc.attempt)
  }

  function AfterReadExisting(store: Store, pc: Pc, reply: Reply): Pc
    requires pc.ReadingExisting?
  {
    var next := NextAttempt(pc.name, pc.attempt);
    if reply == Normal then Take(pc.name, Latest(store, SecretKey(pc.name)), next) else next
  }

  // ----- what a call does to the store

  predicate TakesEffect(reply: Reply) {
    reply == Normal || reply == TransientAfterEffect
  }

  function Created(config: Config, store: Store, key: string, newSecret: string, reply: Reply): Store {
    if TakesEffect(reply) && key !in store then store[key := if config.twoSteps then [] else [newSecret]] else store
  }

  function Added(store: Store, key: string, newSecret: string, reply: Reply): Store {
    if TakesEffect(reply) && key in store then store[key := store[key] + [newSecret]] else store
  }

  // ----- the steps

  /** A process dies with its threads, its cache and its semaphore. */
  function AfterCrash(s: State, process: nat): State {
    State(s.store,
          map p | p in s.caches && p != process :: s.caches[p],
          map p | p in s.holders && p != process :: s.holders[p],
          map t | t in s.pcs && t.process != process :: s.pcs[t])
  }

  /** A step of a thread that touches neither the store nor its cache, and where it leads. */
  ghost predicate Moves(config: Config, s: State, event: Event, t: Thread, pc': Pc) {
    var pc := PcOf(s, t);
    match event
    case Call(u, name) => t == u && (pc.Idle? || pc.Returned? || pc.Threw?) && pc' == Entering(name)
    case Check(u) =>
      t == u && pc.Entering?
      && pc' == if pc.name in CacheOf(s, t.process) then Returned(pc.name, CacheOf(s, t.process)[pc.name]) else Waiting(pc.name)
    case Recheck(u) =>
      t == u && pc.Holding?
      && pc' == if pc.name in CacheOf(s, t.process) then Returned(pc.name, CacheOf(s, t.process)[pc.name]) else Reading(pc.name, false)
    case Read(u, reply) => t == u && pc.Reading? && pc' == AfterRead(config, s.store, t, pc, reply)
    case Iterate(u, newSecret) => t == u && pc.Looping? && newSecret != "" && pc' == AfterIterate(pc, newSecret)
    case Verify(u, reply) => t == u && pc.Verifying? && pc' == AfterVerify(s.store, pc, reply)
    case ReadExisting(u, reply) => t == u && pc.ReadingExisting? && pc' == AfterReadExisting(s.store, pc, reply)
    case _ => false
  }

  ghost predicate Next(config: Config, s: State, event: Event, s': State) {
    match event
    case Acquire(t) =>
      PcOf(s, t).Waiting? && t.process !in s.holders
      && s' == At(s, t, Holding(PcOf(s, t).name)).(holders := s.holders[t.process := t])
    case Create(t, reply) =>
      var pc := PcOf(s, t);
      pc.Creating?
      && s' == Goto(s, t, AfterCreate(config, s.store, pc, reply)).(
                 store := Created(config, s.store, SecretKey(pc.name), pc.newSecret, reply))
    case AddVersion(t, reply) =>
      var pc := PcOf(s, t);
      pc.Adding?
      && s' == Goto(s, t, AfterAdd(pc, reply)).(store := Added(s.store, SecretKey(pc.name), pc.newSecret, reply))
    case Finish(t) =>
      var pc := PcOf(s, t);
      pc.Got?
      && s' == Goto(s, t, Returned(pc.name, pc.value)).(caches := s.caches[t.process := CacheOf(s, t.process)[pc.name := pc.value]])
    case Crash(process) =>
      s' == AfterCrash(s, process)
    case Check(t) =>
      // The semaphore is not held yet.
      exists pc' :: Moves(config, s, event, t, pc') && s' == At(s, t, pc')
    case _ =>
      exists pc' :: Moves(config, s, event, event.t, pc') && s' == Goto(s, event.t, pc')
  }

  /** A run starts with nobody at work, over any store. */
  ghost predicate IsRun(config: Config, states: seq<State>, events: seq<Event>) {
    && |states| == |events| + 1
    && states[0] == State(states[0].store, map[], map[], map[])
    && forall k :: 0 <= k < |events| ==> Next(config, states[k], events[k], states[k + 1])
  }

  // ----- the invariant

  /** The value is the latest version under the client's key, and will stay so. */
  ghost predicate Final(store: Store, name: string, value: string) {
    Latest(store, SecretKey(name)) == Some(value) && value != ""
  }

  /** The secret was created and has no version yet. */
  ghost predicate Empty(store: Store, name: string) {
    SecretKey(name) in store && store[SecretKey(name)] == []
  }

  predicate InLoop(attempt: nat) {
    1 <= attempt <= MAX_RETRIES
  }

  /** What a thread may rely on. */
  ghost predicate PcRight(first: Store, store: Store, pc: Pc) {
    match pc
    case Looping(_, attempt) => InLoop(attempt)
    case Creating(_, attempt, newSecret) => InLoop(attempt) && newSecret != ""
    case Adding(name, attempt, newSecret) => InLoop(attempt) && newSecret != "" && Empty(store, name) && SecretKey(name) !in first
    case Verifying(_, attempt, newSecret) => InLoop(attempt) && newSecret != ""
    case ReadingExisting(_, attempt) => InLoop(attempt)
    case Got(name, value) => Final(store, name, value)
    case Returned(name, value) => Final(store, name, value)
    case Threw(_, fault) => fault != Unexpected
    case _ => true
  }

  ghost predicate PcsRight(first: Store, s: State) {
    forall t :: PcRight(first, s.store, PcOf(s, t))
  }

  ghost predicate CachesRight(s: State) {
    forall p, name :: name in CacheOf(s, p) ==> Final(s.store, name, CacheOf(s, p)[name])
  }

  /** Only one thread adds a version under a key: the one that created the secret. */
  ghost predicate OneAdder(s: State) {
    forall t, u {:trigger PcOf(s, t), PcOf(s, u)} ::
      PcOf(s, t).Adding? && PcOf(s, u).Adding? && SecretKey(PcOf(s, t).name) == SecretKey(PcOf(s, u).name) ==> t == u
  }

  /** Secrets that were there at first are as they were; others have at most one version. */
  ghost predicate Kept(first: Store, store: Store) {
    && (forall key :: key in first ==> key in store && store[key] == first[key])
    && (forall key :: key in store && key !in first ==> |store[key]| <= 1)
  }

  ghost predicate Inv(first: Store, s: State) {
    PcsRight(first, s) && CachesRight(s) && OneAdder(s) && Kept(first, s.store)
  }

  /** The store only gains secrets, and first versions of empty ones. */
  ghost predicate Grows(store: Store, store': Store) {
    forall key :: key in store ==> key in store' && (store[key] != [] ==> store'[key] == store[key])
  }

  lemma FinalStays(store: Store, store': Store, name: string, value: string)
    requires Grows(store, store') && Final(store, name, value)
    ensures Final(store', name, value)
  {
  }

  // ----- steps that leave the store and the caches alone

  /** Only thread t moved, to a place it may be in. */
  ghost predicate Moved(first: Store, s: State, t: Thread, pc: Pc, s': State) {
    && s'.store == s.store && s'.caches == s.caches
    && s'.pcs == s.pcs[t := pc] && PcRight(first, s.store, pc) && !pc.Adding?
  }

  lemma MovedKeepsInv(first: Store, s: State, t: Thread, pc: Pc, s': State)
    requires Inv(first, s) && Moved(first, s, t, pc, s')
    ensures Inv(first, s')
  {
    forall u ensures PcRight(first, s'.store, PcOf(s', u)) && (u != t ==> PcOf(s', u) == PcOf(s, u)) {
      assert PcRight(first, s.store, PcOf(s, u));
    }
    assert forall p :: CacheOf(s', p) == CacheOf(s, p);
  }

  /** Where a step leads is right, given what is known where it starts. */
  lemma MovesRight(config: Config, first: Store, s: State, event: Event, t: Thread, pc': Pc)
    requires CachesRight(s) && PcRight(first, s.store, PcOf(s, t)) && Moves(config, s, event, t, pc')
    ensures PcRight(first, s.store, pc') && !pc'.Adding?
  {
  }

  lemma FinishKeepsInv(first: Store, s: State, t: Thread, s': State)
    requires Inv(first, s) && PcOf(s, t).Got?
    requires var pc := PcOf(s, t);
             s' == Goto(s, t, Returned(pc.name, pc.value)).(caches := s.caches[t.process := CacheOf(s, t.process)[pc.name := pc.value]])
    ensures Inv(first, s')
  {
    var pc := PcOf(s, t);
    assert PcRight(first, s.store, pc);
    var moved := At(s, t, Returned(pc.name, pc.value));
    MovedKeepsInv(first, s, t, Returned(pc.name, pc.value), moved);
    assert forall u :: PcOf(s', u) == PcOf(moved, u);
    forall p, name | name in CacheOf(s', p) ensures Final(s'.store, name, CacheOf(s', p)[name]) {
      if p == t.process && name == pc.name {
      } else {
        assert name in CacheOf(s, p) && CacheOf(s', p)[name] == CacheOf(s, p)[name];
      }
    }
  }

  lemma CrashKeepsInv(first: Store, s: State, process: nat)
    requires Inv(first, s)
    ensures Inv(first, AfterCrash(s, process))
  {
    var s' := AfterCrash(s, process);
    forall t ensures PcOf(s', t) == (if t.process == process then Idle else PcOf(s, t)) {
    }
    forall p ensures CacheOf(s', p) == (if p == process then map[] else CacheOf(s, p)) {
    }
  }

  // ----- steps that change the store

  /** The store grew and thread t moved; no other thread lost or shares its empty secret. */
  ghost predicate Grown(first: Store, s: State, t: Thread, pc: Pc, s': State) {
    && Grows(s.store, s'.store) && Kept(first, s'.store)
    && s'.caches == s.caches && s'.pcs == s.pcs[t := pc] && PcRight(first, s'.store, pc)
    && OthersApart(s, t, pc, s'.store)
  }

  ghost predicate OthersApart(s: State, t: Thread, pc: Pc, store': Store) {
    forall u :: u != t && PcOf(s, u).Adding? ==>
      Empty(store', PcOf(s, u).name) && (pc.Adding? ==> SecretKey(PcOf(s, u).name) != SecretKey(pc.name))
  }

  lemma GrowthKeepsPcs(first: Store, s: State, t: Thread, pc: Pc, s': State)
    requires PcsRight(first, s) && OneAdder(s) && Grown(first, s, t, pc, s')
    ensures PcsRight(first, s') && OneAdder(s')
  {
    forall u ensures PcRight(first, s'.store, PcOf(s', u)) && (u != t ==> PcOf(s', u) == PcOf(s, u)) {
      assert PcRight(first, s.store, PcOf(s, u));
      var old' := PcOf(s, u);
      if u != t && (old'.Got? || old'.Returned?) {
        FinalStays(s.store, s'.store, old'.name, old'.value);
      }
    }
    assert PcOf(s', t) == pc;
  }

  lemma GrowthKeepsInv(first: Store, s: State, t: Thread, pc: Pc, s': State)
    requires Inv(first, s) && Grown(first, s, t, pc, s')
    ensures Inv(first, s')
  {
    GrowthKeepsPcs(first, s, t, pc, s');
    forall p, name | name in CacheOf(s', p) ensures Final(s'.store, name, CacheOf(s', p)[name]) {
      assert name in CacheOf(s, p);
      FinalStays(s.store, s'.store, name, CacheOf(s, p)[name]);
    }
  }

  lemma CreateRight(config: Config, first: Store, store: Store, pc: Pc, reply: Reply)
    requires Kept(first, store) && PcRight(first, store, pc) && pc.Creating?
    ensures var store' := Created(config, store, SecretKey(pc.name), pc.newSecret, reply);
            Grows(store, store') && Kept(first, store') && PcRight(first, store', AfterCreate(config, store, pc, reply))
  {
  }

  lemma CreateApart(config: Config, first: Store, s: State, t: Thread, reply: Reply)
    requires PcsRight(first, s) && PcOf(s, t).Creating?
    ensures var pc := PcOf(s, t);
            OthersApart(s, t, AfterCreate(config, s.store, pc, reply), Created(config, s.store, SecretKey(pc.name), pc.newSecret, reply))
  {
    var pc := PcOf(s, t);
    forall u | u != t && PcOf(s, u).Adding?
      ensures Empty(Created(config, s.store, SecretKey(pc.name), pc.newSecret, reply), PcOf(s, u).name)
      ensures AfterCreate(config, s.store, pc, reply).Adding? ==> SecretKey(PcOf(s, u).name) != SecretKey(pc.name)
    {
      assert PcRight(first, s.store, PcOf(s, u));
    }
  }

  lemma AddRight(first: Store, store: Store, pc: Pc, reply: Reply)
    requires Kept(first, store) && PcRight(first, store, pc) && pc.Adding?
    ensures var store' := Added(store, SecretKey(pc.name), pc.newSecret, reply);
            Grows(store, store') && Kept(first, store') && PcRight(first, store', AfterAdd(pc, reply))
  {
  }

  lemma AddApart(first: Store, s: State, t: Thread, reply: Reply)
    requires PcsRight(first, s) && OneAdder(s) && PcOf(s, t).Adding?
    ensures var pc := PcOf(s, t);
            OthersApart(s, t, AfterAdd(pc, reply), Added(s.store, SecretKey(pc.name), pc.newSecret, reply))
  {
    var pc := PcOf(s, t);
    forall u | u != t && PcOf(s, u).Adding? ensures Empty(Added(s.store, SecretKey(pc.name), pc.newSecret, reply), PcOf(s, u).name) {
      assert PcRight(first, s.store, PcOf(s, u));
      assert SecretKey(PcOf(s, u).name) != SecretKey(pc.name);
    }
  }

  lemma StoreStepKeepsInv(config: Config, first: Store, s: State, event: Event, s': State)
    requires Inv(first, s) && Next(config, s, event, s') && (event.Create? || event.AddVersion?)
    ensures Inv(first, s')
  {
    var t, pc := event.t, PcOf(s, event.t);
    assert PcRight(first, s.store, pc);
    if event.Create? {
      CreateRight(config, first, s.store, pc, event.reply);
      CreateApart(config, first, s, t, event.reply);
      GrowthKeepsInv(first, s, t, AfterCreate(config, s.store, pc, event.reply), s');
    } else {
      AddRight(first, s.store, pc, event.reply);
      AddApart(first, s, t, event.reply);
      GrowthKeepsInv(first, s, t, AfterAdd(pc, event.reply), s');
    }
  }

  predicate IsMove(event: Event) {
    !event.Create? && !event.AddVersion? && !event.Finish? && !event.Crash? && !event.Acquire?
  }

  lemma MoveOf(config: Config, s: State, event: Event, s': State) returns (pc': Pc)
    requires Next(config, s, event, s') && IsMove(event)
    ensures Moves(config, s, event, event.t, pc')
    ensures s' == if event.Check? then At(s, event.t, pc') else Goto(s, event.t, pc')
  {
    pc' :| Moves(config, s, event, event.t, pc') && s' == if event.Check? then At(s, event.t, pc') else Goto(s, event.t, pc');
  }

  lemma MoveKeepsInv(config: Config, first: Store, s: State, event: Event, s': State)
    requires Inv(first, s) && Next(config, s, event, s') && IsMove(event)
    ensures Inv(first, s')
  {
    var pc' := MoveOf(config, s, event, s');
    assert PcRight(first, s.store, PcOf(s, event.t));
    MovesRight(config, first, s, event, event.t, pc');
    MovedKeepsInv(first, s, event.t, pc', s');
  }

  lemma StepKeepsInv(config: Config, first: Store, s: State, event: Event, s': State)
    requires Inv(first, s) && Next(config, s, event, s')
    ensures Inv(first, s')
  {
    if event.Create? || event.AddVersion? {
      StoreStepKeepsInv(config, first, s, event, s');
    } else if event.Finish? {
      FinishKeepsInv(first, s, event.t, s');
    } else if event.Crash? {
      CrashKeepsInv(first, s, event.process);
    } else if event.Acquire? {
      MovedKeepsInv(first, s, event.t, Holding(PcOf(s, event.t).name), s');
    } else {
      MoveKeepsInv(config, first, s, event, s');
    }
  }

  lemma {:induction false} RunsKeepInv(config: Config, states: seq<State>, events: seq<Event>, k: nat)
    requires IsRun(config, states, events) && k < |states|
    ensures Inv(states[0].store, states[k])
  {
    if k > 0 {
      RunsKeepInv(config, states, events, k - 1);
      StepKeepsInv(config, states[0].store, states[k - 1], events[k - 1], states[k]);
    }
  }

  // ----- agreement

  lemma StepGrows(config: Config, first: Store, s: State, event: Event, s': State)
    requires Inv(first, s) && Next(config, s, event, s')
    ensures Grows(s.store, s'.store)
  {
    if event.AddVersion? {
      assert PcRight(first, s.store, PcOf(s, event.t));
      AddRight(first, s.store, PcOf(s, event.t), event.reply);
    }
  }

  lemma RunStepGrows(config: Config, states: seq<State>, events: seq<Event>, k: nat)
    requires IsRun(config, states, events) && k < |events|
    ensures Grows(states[k].store, states[k + 1].store)
  {
    RunsKeepInv(config, states, events, k);
    StepGrows(config, states[0].store, states[k], events[k], states[k + 1]);
  }

  lemma GrowsTransitive(a: Store, b: Store, c: Store)
    requires Grows(a, b) && Grows(b, c)
    ensures Grows(a, c)
  {
  }

  lemma {:induction false} ChainGrows(stores: seq<Store>, i: nat, j: nat)
    requires i <= j < |stores| && forall k :: 0 < k < |stores| ==> Grows(stores[k - 1], stores[k])
    ensures Grows(stores[i], stores[j])
  {
    if i < j {
      ChainGrows(stores, i, j - 1);
      GrowsTransitive(stores[i], stores[j - 1], stores[j]);
    }
  }

  lemma RunGrows(config: Config, states: seq<State>, events: seq<Event>, i: nat, j: nat)
    requires IsRun(config, states, events) && i <= j < |states|
    ensures Grows(states[i].store, states[j].store)
  {
    var stores := seq(|states|, k requires 0 <= k < |states| => states[k].store);
    forall k | 0 < k < |stores| ensures Grows(stores[k - 1], stores[k]) {
      RunStepGrows(config, states, events, k - 1);
    }
    ChainGrows(stores, i, j);
  }

  /** Over any number of processes and threads, transient failures, retries and crashes: all
      calls of GetSecret that return for one secret key return the same string, and it is the
      latest version in the store. */
  lemma Agreement(config: Config, states: seq<State>, events: seq<Event>, i: nat, j: nat, t: Thread, u: Thread)
    requires IsRun(config, states, events) && i <= j < |states|
    requires PcOf(states[i], t).Returned? && PcOf(states[j], u).Returned?
    requires SecretKey(PcOf(states[i], t).name) == SecretKey(PcOf(states[j], u).name)
    ensures PcOf(states[i], t).value == PcOf(states[j], u).value
    ensures Latest(states[j].store, SecretKey(PcOf(states[j], u).name)) == Some(PcOf(states[j], u).value)
  {
    RunsKeepInv(config, states, events, i);
    RunsKeepInv(config, states, events, j);
    RunGrows(config, states, events, i, j);
    var a, b := PcOf(states[i], t), PcOf(states[j], u);
    assert PcRight(states[0].store, states[i].store, a) && PcRight(states[0].store, states[j].store, b);
    FinalStays(states[i].store, states[j].store, a.name, a.value);
  }

  /** A run adds no version to a secret that was there before, and at most one to any other. */
  lemma AtMostOneVersionAdded(config: Config, states: seq<State>, events: seq<Event>, k: nat, key: string)
    requires IsRun(config, states, events) && k < |states|
    ensures key in states[0].store ==> key in states[k].store && states[k].store[key] == states[0].store[key]
    ensures key !in states[0].store && key in states[k].store ==> |states[k].store[key]| <= 1
  {
    RunsKeepInv(config, states, events, k);
  }

  /** The exception behind the retry loop is never thrown. */
  lemma UnexpectedIsUnreachable(config: Config, states: seq<State>, events: seq<Event>, k: nat, t: Thread)
    requires IsRun(config, states, events) && k < |states| && PcOf(states[k], t).Threw?
    ensures PcOf(states[k], t).fault != Unexpected
  {
    RunsKeepInv(config, states, events, k);
    assert PcRight(states[0].store, states[k].store, PcOf(states[k], t));
  }

  // ----- the semaphore

  /** The thread is between acquiring and releasing the semaphore of its process. */
  predicate Inside(pc: Pc) {
    !pc.Idle? && !pc.Entering? && !pc.Waiting? && !pc.Returned? && !pc.Threw?
  }

  ghost predicate HoldersInv(s: State) {
    forall t :: Inside(PcOf(s, t)) ==> t.process in s.holders && s.holders[t.process] == t
  }

  lemma MovesStayInside(config: Config, s: State, event: Event, t: Thread, pc': Pc)
    requires Moves(config, s, event, t, pc')
    ensures Inside(pc') ==> Inside(PcOf(s, t))
    ensures event.Check? ==> !Inside(PcOf(s, t)) && !Inside(pc')
    ensures !event.Check? && (pc'.Returned? || pc'.Threw?) ==> Inside(PcOf(s, t))
  {
  }

  lemma GotoKeepsHolders(s: State, t: Thread, pc': Pc)
    requires HoldersInv(s) && (Inside(pc') ==> Inside(PcOf(s, t))) && (pc'.Returned? || pc'.Threw? ==> Inside(PcOf(s, t)))
    ensures HoldersInv(Goto(s, t, pc'))
  {
    var s' := Goto(s, t, pc');
    forall u | Inside(PcOf(s', u)) ensures u.process in s'.holders && s'.holders[u.process] == u {
      if u != t {
        assert PcOf(s', u) == PcOf(s, u);
        assert u.process in s.holders && s.holders[u.process] == u;
      }
    }
  }

  lemma StepKeepsHolders(config: Config, s: State, event: Event, s': State)
    requires HoldersInv(s) && Next(config, s, event, s')
    ensures HoldersInv(s')
  {
    if event.Create? {
      var pc' := AfterCreate(config, s.store, PcOf(s, event.t), event.reply);
      GotoKeepsHolders(s, event.t, pc');
      assert forall u :: PcOf(s', u) == PcOf(Goto(s, event.t, pc'), u);
    } else if event.AddVersion? {
      var pc' := AfterAdd(PcOf(s, event.t), event.reply);
      GotoKeepsHolders(s, event.t, pc');
      assert forall u :: PcOf(s', u) == PcOf(Goto(s, event.t, pc'), u);
    } else if event.Finish? {
      var pc' := Returned(PcOf(s, event.t).name, PcOf(s, event.t).value);
      GotoKeepsHolders(s, event.t, pc');
      assert forall u :: PcOf(s', u) == PcOf(Goto(s, event.t, pc'), u);
    } else if event.Crash? {
      assert forall u :: PcOf(s', u) == if u.process == event.process then Idle else PcOf(s, u);
    } else if event.Acquire? {
      assert forall u :: u != event.t ==> PcOf(s', u) == PcOf(s, u);
    } else {
      var pc' := MoveOf(config, s, event, s');
      MovesStayInside(config, s, event, event.t, pc');
      if event.Check? {
        assert forall u :: u != event.t ==> PcOf(s', u) == PcOf(s, u);
      } else {
        GotoKeepsHolders(s, event.t, pc');
      }
    }
  }

  lemma {:induction false} RunsKeepHolders(config: Config, states: seq<State>, events: seq<Event>, k: nat)
    requires IsRun(config, states, events) && k < |states|
    ensures HoldersInv(states[k])
  {
    if k > 0 {
      RunsKeepHolders(config, states, events, k - 1);
      StepKeepsHolders(config, states[k - 1], events[k - 1], states[k]);
    }
  }

  /** In each process at most one thread at a time talks to the store. */
  lemma OneThreadPerProcess(config: Config, states: seq<State>, events: seq<Event>, k: nat, t: Thread, u: Thread)
    requires IsRun(config, states, events) && k < |states| && t.process == u.process
    requires Inside(PcOf(states[k], t)) && Inside(PcOf(states[k], u))
    ensures t == u
  {
    RunsKeepHolders(config, states, events, k);
  }
}
