/**
 A secret provider as one process runs it
 (src/client/Fig.Client.SecretProvider.Google/GoogleSecretProvider.cs:40-223,
 src/client/Fig.Client.SecretProvider.Aws/AwsSecretProvider.cs:33-180 and
 src/client/Fig.Client.Contracts/ClientSecretProviderBase.cs:39-58).

 Other threads and processes act between any two operations. They may do to the store what
 SecretAgreement shows that they ever do, and no more: create absent secrets, and add the first
 version of secrets that are not this provider's to complete.
 */
module SecretProvider {
  import opened Text
  import opened SecretAgreement

  datatype Outcome = Secret(value: string) | Failed(fault: Fault)

  /** What others may do to the store while this provider is to complete the secret `mine`. */
  predicate Rely(store: Store, store': Store, mine: Option<string>) {
    && (forall key :: key in store ==> key in store' && (store[key] != [] ==> store'[key] == store[key]))
    && (mine.Some? && mine.value in store ==> mine.value in store' && store'[mine.value] == store[mine.value])
  }

  /** The steps of all other threads and processes keep to that, whatever this thread is doing. */
  lemma OthersRely(config: Config, states: seq<State>, events: seq<Event>, k: nat, t: Thread)
    requires IsRun(config, states, events) && k < |events|
    requires events[k].Create? || events[k].AddVersion? ==> events[k].t != t
    ensures var pc := PcOf(states[k], t);
            Rely(states[k].store, states[k + 1].store, if pc.Adding? then Some(SecretKey(pc.name)) else None)
  {
    var first, s, event := states[0].store, states[k], events[k];
    RunsKeepInv(config, states, events, k);
    assert Next(config, s, event, states[k + 1]);
    StepGrows(config, first, s, event, states[k + 1]);
    if PcOf(s, t).Adding? {
      StepSparesAdder(config, first, s, event, states[k + 1], t);
    }
  }

  lemma StepSparesAdder(config: Config, first: Store, s: State, event: Event, s': State, t: Thread)
    requires Inv(first, s) && Next(config, s, event, s') && PcOf(s, t).Adding?
    requires event.Create? || event.AddVersion? ==> event.t != t
    ensures var key := SecretKey(PcOf(s, t).name); key in s.store && key in s'.store && s'.store[key] == s.store[key]
  {
    assert PcRight(first, s.store, PcOf(s, t));
    if event.AddVersion? {
      assert PcRight(first, s.store, PcOf(s, event.t));
    } else if IsMove(event) {
      var pc' := MoveOf(config, s, event, s');
    }
  }

  /** What this provider asks of the store, and what it learns: a read the latest version, if the
      reply is normal, and a creation whether the secret existed. */
  datatype Operation =
    | ReadOp(key: string, reply: Reply, value: Option<string>)
    | CreateOp(key: string, reply: Reply, existed: bool)
    | AddOp(key: string, reply: Reply)

  /** The latest version under the key is not empty. */
  ghost predicate HasUsable(store: Store, key: string) {
    key in store && store[key] != [] && store[key][|store[key]| - 1] != ""
  }

  ghost predicate IsUsableRead(op: Operation) {
    op.ReadOp? && op.reply.Normal? && op.value.Some? && op.value.value != ""
  }

  ghost predicate AllNormal(ops: seq<Operation>) {
    forall i :: 0 <= i < |ops| ==> ops[i].reply.Normal?
  }

  ghost predicate AllUnder(key: string, ops: seq<Operation>) {
    forall i :: 0 <= i < |ops| ==> ops[i].key == key
  }

  /** One read, and a second one exactly if the first met a transient error. */
  ghost predicate LooksUp(key: string, ops: seq<Operation>) {
    && 1 <= |ops| <= 2 && AllUnder(key, ops)
    && (forall i :: 0 <= i < |ops| ==> ops[i].ReadOp?)
    && (|ops| == 2 <==> ops[0].reply.Transient? || ops[0].reply.TransientAfterEffect?)
  }

  function Creations(ops: seq<Operation>): nat {
    if ops == [] then 0 else Creations(ops[..|ops| - 1]) + if ops[|ops| - 1].CreateOp? then 1 else 0
  }

  lemma {:induction false} CreationsAppend(a: seq<Operation>, b: seq<Operation>)
    ensures Creations(a + b) == Creations(a) + Creations(b)
  {
    if b == [] {
      assert a + b == a;
    } else {
      CreationsAppend(a, b[..|b| - 1]);
      assert (a + b)[..|a + b| - 1] == a + b[..|b| - 1];
    }
  }

  lemma {:induction false} NoCreations(ops: seq<Operation>)
    requires forall i :: 0 <= i < |ops| ==> !ops[i].CreateOp?
    ensures Creations(ops) == 0
  {
    if ops != [] {
      NoCreations(ops[..|ops| - 1]);
    }
  }

  // ----- creations are carried through

  /** What a normal reply is followed by at once: the creation of a secret that was absent, in a
      store of two steps, by the addition of its version; any other creation, and an addition, by a
      read. Only the last read is a usable one. */
  ghost predicate CarriedThrough(config: Config, ops: seq<Operation>) {
    && (forall i :: 0 <= i < |ops| && ops[i].CreateOp? && ops[i].reply.Normal? && !ops[i].existed && config.twoSteps ==>
          i + 1 < |ops| && ops[i + 1].AddOp?)
    && (forall i :: 0 <= i < |ops| && ops[i].CreateOp? && ops[i].reply.Normal? && (ops[i].existed || !config.twoSteps) ==>
          i + 1 < |ops| && ops[i + 1].ReadOp?)
    && (forall i :: 0 <= i < |ops| && ops[i].AddOp? && ops[i].reply.Normal? ==> i + 1 < |ops| && ops[i + 1].ReadOp?)
    && (forall i :: 0 <= i < |ops| - 1 ==> !IsUsableRead(ops[i]))
  }

  lemma CarriedAppend(config: Config, a: seq<Operation>, b: seq<Operation>)
    requires CarriedThrough(config, a) && CarriedThrough(config, b) && (a != [] ==> !IsUsableRead(a[|a| - 1]))
    ensures CarriedThrough(config, a + b)
  {
    var ops := a + b;
    assert forall i :: 0 <= i < |a| ==> ops[i] == a[i];
    assert forall i :: |a| <= i < |ops| ==> ops[i] == b[i - |a|];
  }

  /** The read of a secret that a creation found to exist. */
  ghost predicate ReadsExisting(ops: seq<Operation>) {
    && |ops| >= 2 && ops[|ops| - 1].ReadOp?
    && ops[|ops| - 2].CreateOp? && ops[|ops| - 2].reply.Normal? && ops[|ops| - 2].existed
  }

  /** How the last operation ends the call. A usable value is returned. A call that fails has met an
      error that is not transient, or has used up its attempts: in the last one it met an error, or
      found a secret that exists but has no usable value or cannot be read. */
  ghost predicate Concluded(ops: seq<Operation>, outcome: Outcome)
    requires ops != []
  {
    var last := ops[|ops| - 1];
    match outcome
    case Secret(value) => IsUsableRead(last) && last.value == Some(value)
    case Failed(fault) =>
      && !IsUsableRead(last)
      && if ReadsExisting(ops) then fault == GaveUp && Creations(ops) == 3
         else fault == Uncaught && !last.reply.Normal? && (last.reply.OtherError? || Creations(ops) == 3)
  }

  /** The operations of `CreateSecretWithRetry`. */
  ghost predicate Retried(config: Config, key: string, ops: seq<Operation>, outcome: Outcome) {
    && ops != [] && ops[0].CreateOp? && AllUnder(key, ops) && 1 <= Creations(ops) <= 3
    && CarriedThrough(config, ops) && Concluded(ops, outcome)
  }

  /** The end of one iteration of the retry loop. */
  datatype Iteration = Return(outcome: Outcome) | Fallthrough | Continue

  /** One attempt: a creation and what follows it, each operation after a normal reply. */
  ghost predicate Tried(config: Config, key: string, ops: seq<Operation>, attempt: nat, iteration: Iteration) {
    && ops != [] && ops[0].CreateOp? && AllUnder(key, ops) && (forall i :: 1 <= i < |ops| ==> !ops[i].CreateOp?)
    && CarriedThrough(config, ops) && Ends(ops, attempt, iteration)
  }

  ghost predicate Ends(ops: seq<Operation>, attempt: nat, iteration: Iteration)
    requires ops != []
  {
    var last := ops[|ops| - 1];
    if IsUsableRead(last) then iteration == Return(Secret(last.value.value))
    else if ReadsExisting(ops) then iteration == Fallthrough
    else !last.reply.Normal? && iteration == if last.reply.OtherError? || attempt == MAX_RETRIES then Return(Failed(Uncaught)) else Continue
  }

  ghost predicate IsExistingRead(key: string, ops: seq<Operation>, iteration: Iteration) {
    && |ops| == 1 && ops[0].ReadOp? && ops[0].key == key
    && iteration == if IsUsableRead(ops[0]) then Return(Secret(ops[0].value.value)) else Fallthrough
  }

  ghost predicate IsCompletion(config: Config, key: string, newSecret: string, ops: seq<Operation>, attempt: nat, iteration: Iteration) {
    && newSecret != "" && ops != [] && AllUnder(key, ops)
    && |ops| == (if config.twoSteps && ops[0].reply.Normal? then 2 else 1)
    && (config.twoSteps ==> ops[0].AddOp?)
    && (!config.twoSteps || |ops| == 2 ==> ops[|ops| - 1].ReadOp?)
    && var last := ops[|ops| - 1];
    && (last.reply.Normal? ==> last.ReadOp? && last.value == Some(newSecret) && iteration == Return(Secret(newSecret)))
    && (!last.reply.Normal? ==> iteration == AfterError(last.reply, attempt))
  }

  lemma TriedThrough(config: Config, key: string, create: seq<Operation>, rest: seq<Operation>, attempt: nat, iteration: Iteration)
    requires |create| == 1 && create[0].CreateOp? && create[0].key == key && create[0].reply.Normal? && InLoop(attempt)
    requires if create[0].existed then IsExistingRead(key, rest, iteration)
             else exists newSecret :: IsCompletion(config, key, newSecret, rest, attempt, iteration)
    ensures Tried(config, key, create + rest, attempt, iteration)
  {
    var ops := create + rest;
    assert ops[0] == create[0] && forall i :: 1 <= i < |ops| ==> ops[i] == rest[i - 1];
    assert CarriedThrough(config, ops);
  }

  /** The attempts so far, none of which ended the call. */
  ghost predicate Trying(config: Config, key: string, ops: seq<Operation>, attempt: nat) {
    && AllUnder(key, ops) && CarriedThrough(config, ops) && Creations(ops) == attempt - 1
    && (ops == [] <==> attempt == 1) && (ops != [] ==> ops[0].CreateOp? && !IsUsableRead(ops[|ops| - 1]))
  }

  lemma TriedOnce(config: Config, key: string, ops: seq<Operation>, attempt: nat, more: seq<Operation>, iteration: Iteration)
    requires Trying(config, key, ops, attempt) && InLoop(attempt) && Tried(config, key, more, attempt, iteration)
    ensures Creations(ops + more) == attempt && CarriedThrough(config, ops + more) && AllUnder(key, ops + more)
    ensures (ops + more)[0].CreateOp? && (ops + more)[|ops + more| - 1] == more[|more| - 1]
    ensures ReadsExisting(ops + more) <==> ReadsExisting(more)
  {
    CreationsAppend(ops, more);
    assert more == more[..1] + more[1..] && more[..1][..0] == [];
    CreationsAppend(more[..1], more[1..]);
    NoCreations(more[1..]);
    CarriedAppend(config, ops, more);
    assert |more| >= 2 ==> (ops + more)[|ops + more| - 2] == more[|more| - 2];
    assert |more| == 1 ==> more[0].CreateOp?;
  }

  lemma TriesOn(config: Config, key: string, ops: seq<Operation>, attempt: nat, more: seq<Operation>, iteration: Iteration)
    requires Trying(config, key, ops, attempt) && InLoop(attempt) && Tried(config, key, more, attempt, iteration) && !iteration.Return?
    ensures Trying(config, key, ops + more, attempt + 1)
  {
    TriedOnce(config, key, ops, attempt, more, iteration);
  }

  lemma TriedEnough(config: Config, key: string, ops: seq<Operation>, attempt: nat, more: seq<Operation>, iteration: Iteration)
    requires Trying(config, key, ops, attempt) && InLoop(attempt) && Tried(config, key, more, attempt, iteration)
    ensures iteration.Return? ==> Retried(config, key, ops + more, iteration.outcome)
    ensures iteration.Fallthrough? && attempt == MAX_RETRIES ==> Retried(config, key, ops + more, Failed(GaveUp))
  {
    TriedOnce(config, key, ops, attempt, more, iteration);
  }

  // ----- the store

  class CloudStore {
    const config: Config
    var secrets: Store
    ghost var log: seq<Operation>
    ghost var acts: nat // of others

    constructor (config: Config, secrets: Store)
      ensures this.config == config && this.secrets == secrets && log == [] && acts == 0
    {
      this.config, this.secrets, this.log, this.acts := config, secrets, [], 0;
    }

    /** Others may act. */
    method Interfere(mine: Option<string>)
      modifies this`secrets, this`acts
      ensures Rely(old(secrets), secrets, mine)
      ensures acts >= old(acts) && (acts == old(acts) ==> secrets == old(secrets))
    {
      var next: Store := *;
      if Rely(secrets, next, mine) {
        secrets, acts := next, acts + 1;
      }
    }

    method Access(key: string) returns (reply: Reply, value: Option<string>)
      modifies this
      ensures Grows(old(secrets), secrets)
      ensures value == if reply.Normal? then Latest(secrets, key) else None
      ensures log == old(log) + [ReadOp(key, reply, value)]
      ensures acts >= old(acts) && (acts == old(acts) ==> secrets == old(secrets))
    {
      Interfere(None);
      reply := *;
      value := if reply.Normal? then Latest(secrets, key) else None;
      log := log + [ReadOp(key, reply, value)];
    }

    /** A creation that took effect on an absent secret leaves it empty if it is the first of two
        steps, and complete otherwise. */
    method Create(key: string, newSecret: string) returns (reply: Reply, existed: bool)
      requires newSecret != ""
      modifies this
      ensures Grows(old(secrets), secrets)
      ensures reply.Normal? && !existed ==> key in secrets && secrets[key] == if config.twoSteps then [] else [newSecret]
      ensures existed ==> key in secrets
      ensures log == old(log) + [CreateOp(key, reply, existed)]
      ensures acts >= old(acts)
      ensures acts == old(acts) ==> (existed <==> key in old(secrets))
      ensures acts == old(acts) ==>
                secrets == if !existed && (reply.Normal? || reply.TransientAfterEffect?)
                           then old(secrets)[key := if config.twoSteps then [] else [newSecret]] else old(secrets)
    {
      Interfere(None);
      reply := *;
      existed := key in secrets;
      log := log + [CreateOp(key, reply, existed)];
      secrets := Created(config, secrets, key, newSecret, reply);
    }

    method AddVersion(key: string, newSecret: string) returns (reply: Reply)
      requires key in secrets && secrets[key] == []
      modifies this
      ensures Grows(old(secrets), secrets)
      ensures key in secrets && secrets[key] == if reply.Normal? || reply.TransientAfterEffect? then [newSecret] else []
      ensures log == old(log) + [AddOp(key, reply)]
      ensures acts >= old(acts)
    {
      Interfere(Some(key));
      reply := *;
      log := log + [AddOp(key, reply)];
      secrets := Added(secrets, key, newSecret, reply);
    }
  }

  // ----- the provider

  class Provider {
    const process: nat
    const store: CloudStore
    var secretCache: map<string, string>

    constructor (process: nat, store: CloudStore)
      ensures this.process == process && this.store == store && secretCache == map[] && Valid()
    {
      this.process, this.store, this.secretCache := process, store, map[];
    }

    /** Whatever is cached is the latest version in the store. */
    ghost predicate Valid()
      reads this, store
    {
      forall name :: name in secretCache ==> Final(store.secrets, name, secretCache[name])
    }

    lemma StaysValid(before: Store)
      requires forall name :: name in secretCache ==> Final(before, name, secretCache[name])
      requires Grows(before, store.secrets)
      ensures Valid()
    {
      forall name | name in secretCache ensures Final(store.secrets, name, secretCache[name]) {
        FinalStays(before, store.secrets, name, secretCache[name]);
      }
    }

    /** The semaphore is free; while waiting, other threads of the process may have filled the
        cache. */
    method WaitAsync()
      requires Valid()
      modifies this, store`secrets, store`acts
      ensures Valid() && Grows(old(store.secrets), store.secrets)
      ensures store.acts >= old(store.acts) && (store.acts == old(store.acts) ==> store.secrets == old(store.secrets))
      ensures forall name :: name in old(secretCache) ==> name in secretCache && secretCache[name] == old(secretCache)[name]
    {
      store.Interfere(None);
      StaysValid(old(store.secrets));
      var name: string, value: string := *, *;
      if name !in secretCache && value != "" && Latest(store.secrets, SecretKey(name)) == Some(value) {
        secretCache := secretCache[name := value];
      }
    }

    /** A usable value is cached and returned. */
    method TakeValue(clientName: string, value: Option<string>) returns (outcome: Option<Outcome>)
      requires Valid() && value == Latest(store.secrets, SecretKey(clientName))
      modifies this
      ensures Valid()
      ensures outcome == if value.Some? && value.value != "" then Some(Secret(value.value)) else None
      ensures outcome.Some? ==> Delivered(clientName, outcome.value)
    {
      if value.None? || value.value == "" {
        return None;
      }
      secretCache := secretCache[clientName := value.value];
      outcome := Some(Secret(value.value));
    }

    /** What every operation guarantees: the returned secret is cached and the latest version in
        the store; the exception behind the retry loop is never the outcome. */
    ghost predicate Delivered(clientName: string, outcome: Outcome)
      reads this, store
    {
      match outcome
      case Secret(value) => Final(store.secrets, clientName, value) && clientName in secretCache && secretCache[clientName] == value
      case Failed(fault) => fault != Unexpected
    }

    /** Reads the latest version; a value that is not there, or empty, is left to the caller. */
    method AccessLatest(clientName: string) returns (reply: Reply, value: Option<string>, outcome: Option<Outcome>)
      requires Valid()
      modifies this, store
      ensures Valid() && Grows(old(store.secrets), store.secrets)
      ensures value == if reply.Normal? then Latest(store.secrets, SecretKey(clientName)) else None
      ensures outcome == if value.Some? && value.value != "" then Some(Secret(value.value)) else None
      ensures outcome.Some? ==> Delivered(clientName, outcome.value)
      ensures store.log == old(store.log) + [ReadOp(SecretKey(clientName), reply, value)]
      ensures store.acts >= old(store.acts) && (store.acts == old(store.acts) ==> store.secrets == old(store.secrets))
    {
      reply, value := store.Access(SecretKey(clientName));
      StaysValid(old(store.secrets));
      outcome := None;
      if reply.Normal? {
        outcome := TakeValue(clientName, value);
      }
    }

    /** What a call does that is not answered from the cache: it looks the secret up; only if that
        met no error and found nothing usable, and this process may create secrets, it tries to
        create it, and then it does. */
    ghost predicate Worked(clientName: string, ops: seq<Operation>, looked: nat, outcome: Outcome) {
      var key := SecretKey(clientName);
      && 1 <= looked <= |ops| && LooksUp(key, ops[..looked])
      && var last := ops[looked - 1];
      if !last.reply.Normal? then looked == |ops| && outcome == Failed(Uncaught)
      else if IsUsableRead(last) then looked == |ops| && outcome == Secret(last.value.value)
      else if !store.config.autoCreate(process) then looked == |ops| && outcome == Failed(SecretNotFound)
      else Retried(store.config, key, ops[looked..], outcome)
    }

    /** What comes of a call that meets no error and nobody interferes with: a secret, exactly if
        there was a usable value, or no secret and this process may create it. */
    ghost predicate Undisturbed(clientName: string, before: Store, outcome: Outcome) {
      outcome.Secret? <==> HasUsable(before, SecretKey(clientName))
                           || (SecretKey(clientName) !in before && store.config.autoCreate(process))
    }

    /** `GetSecret`. */
    method GetSecret(clientName: string) returns (outcome: Outcome, ghost ops: seq<Operation>, ghost looked: nat)
      requires Valid()
      modifies this, store
      ensures Valid() && Grows(old(store.secrets), store.secrets)
      ensures Delivered(clientName, outcome)
      ensures outcome.Secret? ==> var key := SecretKey(clientName);
                HasUsable(store.secrets, key) && outcome.value == store.secrets[key][|store.secrets[key]| - 1]
      ensures store.log == old(store.log) + ops
      ensures clientName in old(secretCache) ==> outcome == Secret(old(secretCache)[clientName]) && store.secrets == old(store.secrets) && ops == []
      ensures if ops == [] then outcome.Secret? else Worked(clientName, ops, looked, outcome)
      ensures store.acts == old(store.acts) && AllNormal(ops) ==> Undisturbed(clientName, old(store.secrets), outcome)
    {
      if clientName in secretCache {
        return Secret(secretCache[clientName]), [], 0;
      }
      WaitAsync();
      if clientName in secretCache {
        return Secret(secretCache[clientName]), [], 0;
      }
      ghost var before := store.secrets;
      outcome, ops, looked := GetOrCreateSecretInternal(clientName);
      GrowsTransitive(old(store.secrets), before, store.secrets);
    }

    method GetOrCreateSecretInternal(clientName: string) returns (outcome: Outcome, ghost ops: seq<Operation>, ghost looked: nat)
      requires Valid()
      modifies this, store
      ensures Valid() && Grows(old(store.secrets), store.secrets)
      ensures Delivered(clientName, outcome)
      ensures store.log == old(store.log) + ops && Worked(clientName, ops, looked, outcome)
      ensures store.acts >= old(store.acts)
      ensures store.acts == old(store.acts) && AllNormal(ops) ==> Undisturbed(clientName, old(store.secrets), outcome)
    {
      var reply, result;
      reply, result, ops := LookUp(clientName);
      looked := |ops|;
      assert ops[..looked] == ops && ops[looked..] == [];
      ghost var mid := store.secrets;
      if result.Some? {
        return result.value, ops, looked;
      }
      if !reply.Normal? {
        return Failed(Uncaught), ops, looked;
      }
      if !store.config.autoCreate(process) {
        return Failed(SecretNotFound), ops, looked;
      }
      ghost var attempts;
      outcome, attempts := CreateSecretWithRetry(clientName);
      GrowsTransitive(old(store.secrets), mid, store.secrets);
      assert (ops + attempts)[..looked] == ops && (ops + attempts)[looked..] == attempts;
      ops := ops + attempts;
    }

    /** The read with its one retry. */
    method LookUp(clientName: string) returns (reply: Reply, result: Option<Outcome>, ghost ops: seq<Operation>)
      requires Valid()
      modifies this, store
      ensures Valid() && Grows(old(store.secrets), store.secrets)
      ensures result.Some? ==> Delivered(clientName, result.value)
      ensures store.log == old(store.log) + ops && LooksUp(SecretKey(clientName), ops)
      ensures var last := ops[|ops| - 1];
              reply == last.reply && (reply.Normal? ==> last.value == Latest(store.secrets, SecretKey(clientName)))
      ensures result == if IsUsableRead(ops[|ops| - 1]) then Some(Secret(ops[|ops| - 1].value.value)) else None
      ensures store.acts >= old(store.acts) && (store.acts == old(store.acts) ==> store.secrets == old(store.secrets))
    {
      var value;
      reply, value, result := AccessLatest(clientName);
      ops := [ReadOp(SecretKey(clientName), reply, value)];
      if reply.Transient? || reply.TransientAfterEffect? {
        ghost var mid := store.secrets;
        reply, value, result := AccessLatest(clientName);
        ops := ops + [ReadOp(SecretKey(clientName), reply, value)];
        GrowsTransitive(old(store.secrets), mid, store.secrets);
      }
    }

    /** The retry loop: each path through the last iteration returns, so the exception behind the
        loop is out of reach. */
    method CreateSecretWithRetry(clientName: string) returns (outcome: Outcome, ghost ops: seq<Operation>)
      requires Valid()
      modifies this, store
      ensures Valid() && Grows(old(store.secrets), store.secrets)
      ensures Delivered(clientName, outcome)
      ensures store.log == old(store.log) + ops && Retried(store.config, SecretKey(clientName), ops, outcome)
      ensures store.acts >= old(store.acts)
      ensures store.acts == old(store.acts) && AllNormal(ops) && !HasUsable(old(store.secrets), SecretKey(clientName)) ==>
                (outcome.Secret? <==> SecretKey(clientName) !in old(store.secrets))
    {
      var attempt := 1;
      ops := [];
      ghost var key := SecretKey(clientName);
      while attempt <= MAX_RETRIES
        invariant 1 <= attempt <= MAX_RETRIES
        invariant Valid() && Grows(old(store.secrets), store.secrets)
        invariant store.log == old(store.log) + ops && Trying(store.config, key, ops, attempt)
        invariant store.acts >= old(store.acts)
        invariant store.acts == old(store.acts) && AllNormal(ops) ==> Unmoved(key, old(store.secrets), store.secrets, attempt)
        decreases MAX_RETRIES - attempt
      {
        ghost var before := store.secrets;
        ghost var more;
        var iteration;
        iteration, more := TryCreate(clientName, attempt);
        GrowsTransitive(old(store.secrets), before, store.secrets);
        TriedEnough(store.config, key, ops, attempt, more, iteration);
        NormalParts(ops, more);
        if iteration.Return? {
          return iteration.outcome, ops + more;
        }
        if iteration.Fallthrough? && attempt == MAX_RETRIES {
          return Failed(GaveUp), ops + more;
        }
        TriesOn(store.config, key, ops, attempt, more, iteration);
        ops := ops + more;
        attempt := attempt + 1;
      }
      assert false;
    }

    /** One iteration: it goes on to the next attempt only if there is one. */
    method TryCreate(clientName: string, attempt: nat) returns (iteration: Iteration, ghost ops: seq<Operation>)
      requires Valid() && InLoop(attempt)
      modifies this, store
      ensures Valid() && Grows(old(store.secrets), store.secrets)
      ensures iteration.Return? ==> Delivered(clientName, iteration.outcome)
      ensures store.log == old(store.log) + ops && Tried(store.config, SecretKey(clientName), ops, attempt, iteration)
      ensures store.acts >= old(store.acts)
      ensures store.acts == old(store.acts) && AllNormal(ops) ==> TriedAlone(SecretKey(clientName), old(store.secrets), store.secrets, iteration)
    {
      var key := SecretKey(clientName);
      var newSecret := NewGuid();
      var reply, existed := store.Create(key, newSecret);
      StaysValid(old(store.secrets));
      ghost var created := store.secrets;
      ops := [CreateOp(key, reply, existed)];
      if !reply.Normal? {
        return AfterError(reply, attempt), ops;
      }
      ghost var rest;
      if existed {
        iteration, rest := ReadExisting(clientName);
      } else {
        iteration, rest := Complete(clientName, newSecret, attempt);
      }
      GrowsTransitive(old(store.secrets), created, store.secrets);
      TriedThrough(store.config, key, ops, rest, attempt, iteration);
      NormalParts(ops, rest);
      ops := ops + rest;
    }

    method ReadExisting(clientName: string) returns (iteration: Iteration, ghost ops: seq<Operation>)
      requires Valid()
      modifies this, store
      ensures Valid() && Grows(old(store.secrets), store.secrets)
      ensures iteration.Return? ==> Delivered(clientName, iteration.outcome)
      ensures store.log == old(store.log) + ops && IsExistingRead(SecretKey(clientName), ops, iteration)
      ensures store.acts >= old(store.acts) && (store.acts == old(store.acts) ==> store.secrets == old(store.secrets))
      ensures ops[0].reply.Normal? ==> ops[0].value == Latest(store.secrets, SecretKey(clientName))
    {
      var reply, value, result := AccessLatest(clientName);
      ops := [ReadOp(SecretKey(clientName), reply, value)];
      iteration := if result.Some? then Return(result.value) else Fallthrough;
    }

    /** After the creation of an absent secret: its version, if that is a step of its own, and the
        verifying read. */
    method Complete(clientName: string, newSecret: string, attempt: nat) returns (iteration: Iteration, ghost ops: seq<Operation>)
      requires Valid() && InLoop(attempt) && newSecret != ""
      requires var key := SecretKey(clientName); key in store.secrets && store.secrets[key] == if store.config.twoSteps then [] else [newSecret]
      modifies this, store
      ensures Valid() && Grows(old(store.secrets), store.secrets)
      ensures iteration.Return? ==> Delivered(clientName, iteration.outcome)
      ensures store.log == old(store.log) + ops && IsCompletion(store.config, SecretKey(clientName), newSecret, ops, attempt, iteration)
      ensures store.acts >= old(store.acts)
    {
      ops := [];
      if store.config.twoSteps {
        var reply := store.AddVersion(SecretKey(clientName), newSecret);
        StaysValid(old(store.secrets));
        ops := [AddOp(SecretKey(clientName), reply)];
        if !reply.Normal? {
          return AfterError(reply, attempt), ops;
        }
      }
      ghost var before, verified := store.secrets, [];
      iteration, verified := VerifyCreated(clientName, newSecret, attempt);
      GrowsTransitive(old(store.secrets), before, store.secrets);
      ops := ops + verified;
    }

    /** Whoever reads it, the secret that this attempt made is what the store has. */
    method VerifyCreated(clientName: string, newSecret: string, attempt: nat) returns (iteration: Iteration, ghost ops: seq<Operation>)
      requires Valid() && InLoop(attempt) && Final(store.secrets, clientName, newSecret)
      modifies this, store
      ensures Valid() && Grows(old(store.secrets), store.secrets)
      ensures iteration.Return? ==> Delivered(clientName, iteration.outcome)
      ensures |ops| == 1 && ops[0].ReadOp? && ops[0].key == SecretKey(clientName) && store.log == old(store.log) + ops
      ensures ops[0].reply.Normal? ==> ops[0].value == Some(newSecret) && iteration == Return(Secret(newSecret))
      ensures !ops[0].reply.Normal? ==> iteration == AfterError(ops[0].reply, attempt)
      ensures store.acts >= old(store.acts)
    {
      var reply, value, result := AccessLatest(clientName);
      ops := [ReadOp(SecretKey(clientName), reply, value)];
      if !reply.Normal? {
        return AfterError(reply, attempt), ops;
      }
      FinalStays(old(store.secrets), store.secrets, clientName, newSecret);
      iteration := Verdict(value);
    }
  }

  /** What an attempt comes to that meets no error and nobody interferes with. */
  ghost predicate TriedAlone(key: string, before: Store, after: Store, iteration: Iteration) {
    && (key !in before ==> iteration.Return? && iteration.outcome.Secret?)
    && (key in before && !HasUsable(before, key) ==> iteration.Fallthrough? && after == before)
  }

  /** Attempts that met no error while nobody interfered changed nothing, if there is a next one. */
  ghost predicate Unmoved(key: string, first: Store, now: Store, attempt: nat) {
    !HasUsable(first, key) ==> now == first && (attempt > 1 ==> key in first)
  }

  lemma NormalParts(a: seq<Operation>, b: seq<Operation>)
    ensures AllNormal(a + b) <==> AllNormal(a) && AllNormal(b)
  {
    assert forall i :: 0 <= i < |a| ==> (a + b)[i] == a[i];
    assert forall i :: 0 <= i < |b| ==> (a + b)[|a| + i] == b[i];
  }

  /** What the verifying read makes of the value: the not-found error is not caught. */
  function Verdict(value: Option<string>): (iteration: Iteration)
    ensures value.Some? && value.value != "" ==> iteration == Return(Secret(value.value))
  {
    match value
    case None => Return(Failed(Uncaught))
    case Some(text) => if text == "" then Fallthrough else Return(Secret(text))
  }

  /** A transient error is retried before the last attempt; any other is not caught. */
  function AfterError(reply: Reply, attempt: nat): (iteration: Iteration)
    requires !reply.Normal?
    ensures iteration.Continue? <==> !reply.OtherError? && attempt < MAX_RETRIES
    ensures !iteration.Continue? ==> iteration == Return(Failed(Uncaught))
  {
    if !reply.OtherError? && attempt < MAX_RETRIES then Continue else Return(Failed(Uncaught))
  }

  method NewGuid() returns (guid: string)
    ensures guid != ""
  {
    guid := *;
    if guid == "" {
      guid := "00000000-0000-0000-0000-000000000000";
    }
  }
}
