/**
 The runs of the code hasher (src/api/Fig.Api/Validators/CodeHasher.cs:50-76): any number of threads
 ask it about the codes of settings, over one cache. A thread asks the cache under the current API
 secret, and under the previous one if the answer was false. Every look-up and store of the cache,
 and every removal of a key by others, is a step of its own.
 */
module HasherRuns {
  import opened Text
  import opened HashCache

  datatype Question = Question(name: Name, code: string, hash: string)

  datatype Config = Config(crypto: Crypto, expiry: int, names: iset<Name>, current: string, previous: Option<string>)
  {
    predicate HasPrevious() {
      IsDifferentPreviousSecret(previous, current)
    }

    function First(q: Question): Call {
      CurrentCall(q.name, q.code, q.hash, current)
    }

    function Second(q: Question): Call
      requires HasPrevious()
    {
      PreviousCall(q.name, q.code, q.hash, previous.value)
    }

    /** The answer of the overload that uses no cache. */
    function Uncached(q: Question): bool {
      IsValidUncached(crypto, q.hash, Some(q.code), current, previous)
    }

    ghost function Calls(): iset<Call> {
      HasherCalls(crypto, names, current, previous)
    }
  }

  datatype Stage =
    | Free
    | AsksCurrent(q: Question)
    | AsksPrevious(q: Question)
    | Answered(q: Question, answer: bool)

  datatype HasherState = HasherState(inner: State, stages: imap<Thread, Stage>)

  datatype Step =
    | Ask(thread: Thread, q: Question)
    | Go(thread: Thread)                // with the answer of the cache
    | OfCache(event: Event)

  function StageOf(h: HasherState, thread: Thread): Stage {
    if thread in h.stages then h.stages[thread] else Free
  }

  /** A thread calls the cache. */
  function Calling(h: HasherState, thread: Thread, stage: Stage, call: Call): HasherState {
    HasherState(At(h.inner, thread, Called(call)), h.stages[thread := stage])
  }

  function Answering(h: HasherState, thread: Thread, q: Question, answer: bool): HasherState {
    h.(stages := h.stages[thread := Answered(q, answer)])
  }

  predicate AnsweredByBlank(q: Question) {
    IsBlank(q.hash) || IsBlank(q.code)
  }

  /** A question that needs the current secret ends in an exception if that is blank. */
  ghost predicate Next(config: Config, h: HasherState, step: Step, h': HasherState) {
    match step
    case Ask(thread, q) =>
      && (StageOf(h, thread).Free? || StageOf(h, thread).Answered?) && q.name in config.names
      && if AnsweredByBlank(q) then h' == Answering(h, thread, q, false)
         else !IsBlank(config.current) && h' == Calling(h, thread, AsksCurrent(q), config.First(q))
    case Go(thread) =>
      var stage, pc := StageOf(h, thread), PcOf(h.inner, thread);
      && (stage.AsksCurrent? || stage.AsksPrevious?) && pc.Returned?
      && if stage.AsksCurrent? && !pc.answer && config.HasPrevious() then
           h' == Calling(h, thread, AsksPrevious(stage.q), config.Second(stage.q))
         else h' == Answering(h, thread, stage.q, pc.answer)
    case OfCache(event) =>
      && !event.Begin? && HashCache.Next(config.crypto, config.expiry, iset{}, h.inner, event, h'.inner)
      && h'.stages == h.stages
  }

  ghost predicate IsRun(config: Config, states: seq<HasherState>, steps: seq<Step>) {
    && |states| == |steps| + 1
    && states[0] == HasherState(INITIAL, imap[])
    && forall k :: 0 <= k < |steps| ==> Next(config, states[k], steps[k], states[k + 1])
  }

  // ----- answers are right where the calls are coherent

  ghost predicate AnsweredRight(config: Config, stage: Stage) {
    stage.Answered? ==> stage.answer == config.Uncached(stage.q)
  }

  /** The thread is at the call that its stage says, and it asks under the previous secret only
      what the current one does not match. */
  ghost predicate StageRight(config: Config, stage: Stage, pc: Pc) {
    match stage
    case Free => true
    case AsksCurrent(q) => !AnsweredByBlank(q) && !pc.Idle? && pc.call == config.First(q) && q.name in config.names
    case AsksPrevious(q) =>
      && !AnsweredByBlank(q) && !pc.Idle? && config.HasPrevious() && pc.call == config.Second(q)
      && !CodeMatches(config.crypto, q.code, q.hash, config.current)
    case Answered(q, answer) => answer == config.Uncached(q)
  }

  ghost predicate HasherInv(config: Config, h: HasherState) {
    && Inv(config.crypto, config.Calls(), h.inner)
    && forall thread :: StageRight(config, StageOf(h, thread), PcOf(h.inner, thread))
  }

  lemma FirstIsMade(config: Config, q: Question)
    requires q.name in config.names && !AnsweredByBlank(q)
    ensures config.First(q) in config.Calls()
  {
    assert MakesCall(config.crypto, q.name, config.current, config.previous, config.First(q));
  }

  lemma SecondIsMade(config: Config, q: Question)
    requires q.name in config.names && !AnsweredByBlank(q) && config.HasPrevious()
    requires !CodeMatches(config.crypto, q.code, q.hash, config.current)
    ensures config.Second(q) in config.Calls()
  {
    assert MakesCall(config.crypto, q.name, config.current, config.previous, config.Second(q));
  }

  lemma CallingKeepsInv(config: Config, h: HasherState, thread: Thread, stage: Stage, call: Call)
    requires HasherInv(config, h) && call in config.Calls() && StageRight(config, stage, Called(call))
    ensures HasherInv(config, Calling(h, thread, stage, call))
  {
    var h' := Calling(h, thread, stage, call);
    AtKeepsRight(config.crypto, config.Calls(), h.inner, thread, Called(call));
    forall t ensures StageRight(config, StageOf(h', t), PcOf(h'.inner, t)) {
      assert t != thread ==> StageOf(h', t) == StageOf(h, t) && PcOf(h'.inner, t) == PcOf(h.inner, t);
    }
  }

  lemma AnsweringKeepsInv(config: Config, h: HasherState, thread: Thread, q: Question, answer: bool)
    requires HasherInv(config, h) && answer == config.Uncached(q)
    ensures HasherInv(config, Answering(h, thread, q, answer))
  {
    var h' := Answering(h, thread, q, answer);
    forall t ensures StageRight(config, StageOf(h', t), PcOf(h'.inner, t)) {
      assert t != thread ==> StageOf(h', t) == StageOf(h, t);
    }
  }

  lemma GoKeepsInv(config: Config, h: HasherState, thread: Thread, h': HasherState)
    requires HasherInv(config, h) && Next(config, h, Go(thread), h')
    ensures HasherInv(config, h')
  {
    var stage, pc := StageOf(h, thread), PcOf(h.inner, thread);
    assert StageRight(config, stage, pc) && PcRight(config.crypto, config.Calls(), pc);
    if stage.AsksCurrent? && !pc.answer && config.HasPrevious() {
      SecondIsMade(config, stage.q);
      CallingKeepsInv(config, h, thread, AsksPrevious(stage.q), config.Second(stage.q));
    } else {
      AnsweringKeepsInv(config, h, thread, stage.q, pc.answer);
    }
  }

  /** A step of the cache leaves every thread at its call. */
  lemma CacheStepKeepsCall(config: Config, s: State, event: Event, s': State, thread: Thread)
    requires !event.Begin? && HashCache.Next(config.crypto, config.expiry, iset{}, s, event, s')
    ensures PcOf(s', thread).Idle? <==> PcOf(s, thread).Idle?
    ensures !PcOf(s, thread).Idle? ==> PcOf(s', thread).call == PcOf(s, thread).call
  {
  }

  lemma CacheStepKeepsInv(config: Config, h: HasherState, event: Event, h': HasherState)
    requires Coherent(config.crypto, config.Calls()) && HasherInv(config, h) && Next(config, h, OfCache(event), h')
    ensures HasherInv(config, h')
  {
    HashCache.StepKeepsInv(config.crypto, config.expiry, config.Calls(), h.inner, event, h'.inner);
    forall t ensures StageRight(config, StageOf(h', t), PcOf(h'.inner, t)) {
      CacheStepKeepsCall(config, h.inner, event, h'.inner, t);
      assert StageRight(config, StageOf(h, t), PcOf(h.inner, t));
    }
  }

  lemma StepKeepsInv(config: Config, h: HasherState, step: Step, h': HasherState)
    requires Coherent(config.crypto, config.Calls()) && HasherInv(config, h) && Next(config, h, step, h')
    ensures HasherInv(config, h')
  {
    match step {
      case Ask(thread, q) =>
        if AnsweredByBlank(q) {
          AnsweringKeepsInv(config, h, thread, q, false);
        } else {
          FirstIsMade(config, q);
          CallingKeepsInv(config, h, thread, AsksCurrent(q), config.First(q));
        }
      case Go(thread) => GoKeepsInv(config, h, thread, h');
      case OfCache(event) => CacheStepKeepsInv(config, h, event, h');
    }
  }

  lemma {:induction false} RunsKeepInv(config: Config, states: seq<HasherState>, steps: seq<Step>, k: nat)
    requires Coherent(config.crypto, config.Calls()) && IsRun(config, states, steps) && k < |states|
    ensures HasherInv(config, states[k])
  {
    if k > 0 {
      RunsKeepInv(config, states, steps, k - 1);
      StepKeepsInv(config, states[k - 1], steps[k - 1], states[k]);
    }
  }

  // ----- a run that misleads

  /** A run that ends with thread 0 in the given stage, at the given place, over the given cache. */
  ghost predicate EndsAt(config: Config, states: seq<HasherState>, steps: seq<Step>, stage: Stage, pc: Pc, cache: Cache) {
    && IsRun(config, states, steps)
    && StageOf(states[|steps|], 0) == stage && PcOf(states[|steps|].inner, 0) == pc && states[|steps|].inner.cache == cache
  }

  lemma RunGoesOn(config: Config, states: seq<HasherState>, steps: seq<Step>, step: Step, h': HasherState)
    requires IsRun(config, states, steps) && Next(config, states[|steps|], step, h')
    ensures IsRun(config, states + [h'], steps + [step])
  {
  }

  lemma AskRun(config: Config, states: seq<HasherState>, steps: seq<Step>, stage: Stage, pc: Pc, cache: Cache, q: Question)
    returns (states': seq<HasherState>, steps': seq<Step>)
    requires EndsAt(config, states, steps, stage, pc, cache) && (stage.Free? || stage.Answered?)
    requires q.name in config.names && !AnsweredByBlank(q) && !IsBlank(config.current)
    ensures EndsAt(config, states', steps', AsksCurrent(q), Called(config.First(q)), cache)
  {
    var h' := Calling(states[|steps|], 0, AsksCurrent(q), config.First(q));
    RunGoesOn(config, states, steps, Ask(0, q), h');
    states', steps' := states + [h'], steps + [Ask(0, q)];
  }

  lemma GoOnRun(config: Config, states: seq<HasherState>, steps: seq<Step>, q: Question, call: Call, cache: Cache)
    returns (states': seq<HasherState>, steps': seq<Step>)
    requires EndsAt(config, states, steps, AsksCurrent(q), Returned(call, false), cache) && config.HasPrevious()
    ensures EndsAt(config, states', steps', AsksPrevious(q), Called(config.Second(q)), cache)
  {
    var h' := Calling(states[|steps|], 0, AsksPrevious(q), config.Second(q));
    RunGoesOn(config, states, steps, Go(0), h');
    states', steps' := states + [h'], steps + [Go(0)];
  }

  lemma AnswerRun(config: Config, states: seq<HasherState>, steps: seq<Step>, q: Question, call: Call, answer: bool, cache: Cache)
    returns (states': seq<HasherState>, steps': seq<Step>)
    requires EndsAt(config, states, steps, AsksPrevious(q), Returned(call, answer), cache)
    ensures EndsAt(config, states', steps', Answered(q, answer), Returned(call, answer), cache)
  {
    var h' := Answering(states[|steps|], 0, q, answer);
    RunGoesOn(config, states, steps, Go(0), h');
    states', steps' := states + [h'], steps + [Go(0)];
  }

  lemma CacheRun(config: Config, states: seq<HasherState>, steps: seq<Step>, stage: Stage, pc: Pc, cache: Cache,
                 event: Event, pc': Pc, cache': Cache)
    returns (states': seq<HasherState>, steps': seq<Step>)
    requires EndsAt(config, states, steps, stage, pc, cache) && !event.Begin?
    requires forall s: State :: PcOf(s, 0) == pc && s.cache == cache ==>
      HashCache.Next(config.crypto, config.expiry, iset{}, s, event, At(s, 0, pc').(cache := cache'))
    ensures EndsAt(config, states', steps', stage, pc', cache')
  {
    var h := states[|steps|];
    var h' := h.(inner := At(h.inner, 0, pc').(cache := cache'));
    RunGoesOn(config, states, steps, OfCache(event), h');
    states', steps' := states + [h'], steps + [OfCache(event)];
  }

  /** A call whose key is not in the cache is answered directly, and its entry stored. */
  lemma MissRun(config: Config, states: seq<HasherState>, steps: seq<Step>, stage: Stage, call: Call, cache: Cache)
    returns (states': seq<HasherState>, steps': seq<Step>)
    requires EndsAt(config, states, steps, stage, Called(call), cache) && Key(call) !in cache
    ensures EndsAt(config, states', steps', stage, Returned(call, Direct(config.crypto, call)),
                   cache[Key(call) := NewEntry(config.crypto, call, 0)])
  {
    var answer := Direct(config.crypto, call);
    states', steps' := CacheRun(config, states, steps, stage, Called(call), cache, Look(0), Looked(call, None), cache);
    states', steps' := CacheRun(config, states', steps', stage, Looked(call, None), cache, Decide(0, 0), Verified(call, answer), cache);
    states', steps' := CacheRun(config, states', steps', stage, Verified(call, answer), cache, Store(0, 0), Returned(call, answer),
                                cache[Key(call) := NewEntry(config.crypto, call, 0)]);
  }

  /** A call that the entry of its key answers is answered by it. */
  lemma HitRun(config: Config, states: seq<HasherState>, steps: seq<Step>, stage: Stage, call: Call, cache: Cache, entry: Entry)
    returns (states': seq<HasherState>, steps': seq<Step>)
    requires EndsAt(config, states, steps, stage, Called(call), cache) && Lookup(cache, Key(call)) == Some(entry)
    requires Hits(config.crypto, config.expiry, Some(entry), call, 0)
    ensures EndsAt(config, states', steps', stage, Returned(call, entry.isValid), cache)
  {
    states', steps' := CacheRun(config, states, steps, stage, Called(call), cache, Look(0), Looked(call, Some(entry)), cache);
    states', steps' := CacheRun(config, states', steps', stage, Looked(call, Some(entry)), cache, Decide(0, 0),
                                Returned(call, entry.isValid), cache);
  }

  /** The three keys of two clashing names: the shared one is longer than the other key of b, and
      shorter than the other key of a. */
  lemma ClashingKeys(a: Name, b: Name)
    requires Clash(a, b)
    ensures CodeHashKey(a.client, a.setting) == CodeHashKey(b.client + PREVIOUS_SUFFIX, b.setting)
    ensures CodeHashKey(b.client, b.setting) != CodeHashKey(a.client, a.setting)
    ensures CodeHashKey(a.client + PREVIOUS_SUFFIX, a.setting) != CodeHashKey(a.client, a.setting)
    ensures CodeHashKey(b.client, b.setting) != CodeHashKey(a.client + PREVIOUS_SUFFIX, a.setting)
  {
    ClashIsSameKey(a, b);
    assert |CodeHashKey(a.client + PREVIOUS_SUFFIX, a.setting)| == |CodeHashKey(a.client, a.setting)| + |PREVIOUS_SUFFIX|;
    assert |CodeHashKey(b.client + PREVIOUS_SUFFIX, b.setting)| == |CodeHashKey(b.client, b.setting)| + |PREVIOUS_SUFFIX|;
  }

  /** The first question leaves two entries: false under the current secret, true under the other. */
  lemma FirstQuestionRun(config: Config, a: Name, code: string, hash: string)
    returns (states: seq<HasherState>, steps: seq<Step>)
    requires a in config.names && !IsBlank(config.current) && config.HasPrevious()
    requires MatchesPreviousOnly(config.crypto, code, hash, config.current, config.previous.value)
    requires Key(config.First(Question(a, code, hash))) != Key(config.Second(Question(a, code, hash)))
    ensures var q := Question(a, code, hash);
            EndsAt(config, states, steps, Answered(q, true), Returned(config.Second(q), true),
                   map[Key(config.First(q)) := NewEntry(config.crypto, config.First(q), 0)]
                      [Key(config.Second(q)) := NewEntry(config.crypto, config.Second(q), 0)])
  {
    var q := Question(a, code, hash);
    states, steps := [HasherState(INITIAL, imap[])], [];
    states, steps := AskRun(config, states, steps, Free, Idle, map[], q);
    states, steps := MissRun(config, states, steps, AsksCurrent(q), config.First(q), map[]);
    var cache: Cache := map[][Key(config.First(q)) := NewEntry(config.crypto, config.First(q), 0)];
    states, steps := GoOnRun(config, states, steps, q, config.First(q), cache);
    states, steps := MissRun(config, states, steps, AsksPrevious(q), config.Second(q), cache);
    cache := cache[Key(config.Second(q)) := NewEntry(config.crypto, config.Second(q), 0)];
    states, steps := AnswerRun(config, states, steps, q, config.Second(q), true, cache);
  }

  /** One thread asks about a and then about b, for a code that only the previous secret matches:
      the second answer comes from the entry of the first question's first call, and is false. */
  lemma MisleadingRun(config: Config, a: Name, b: Name, code: string, hash: string)
    returns (states: seq<HasherState>, steps: seq<Step>)
    requires config.expiry > 0 && a in config.names && b in config.names && Clash(a, b)
    requires !IsBlank(config.current) && config.HasPrevious()
    requires MatchesPreviousOnly(config.crypto, code, hash, config.current, config.previous.value)
    ensures IsRun(config, states, steps)
    ensures StageOf(states[|steps|], 0) == Answered(Question(b, code, hash), false) && config.Uncached(Question(b, code, hash))
  {
    var p, q := Question(a, code, hash), Question(b, code, hash);
    ClashingKeys(a, b);
    states, steps := FirstQuestionRun(config, a, code, hash);
    var entry := NewEntry(config.crypto, config.First(p), 0);
    var cache: Cache := map[Key(config.First(p)) := entry][Key(config.Second(p)) := NewEntry(config.crypto, config.Second(p), 0)];
    states, steps := AskRun(config, states, steps, Answered(p, true), Returned(config.Second(p), true), cache, q);
    states, steps := MissRun(config, states, steps, AsksCurrent(q), config.First(q), cache);
    cache := cache[Key(config.First(q)) := NewEntry(config.crypto, config.First(q), 0)];
    states, steps := GoOnRun(config, states, steps, q, config.First(q), cache);
    states, steps := HitRun(config, states, steps, AsksPrevious(q), config.Second(q), cache, entry);
    states, steps := AnswerRun(config, states, steps, q, config.Second(q), false, cache);
  }

  // ----- the theorem

  ghost predicate AlwaysRight(config: Config) {
    forall states: seq<HasherState>, steps: seq<Step>, k: int, thread: Thread ::
      IsRun(config, states, steps) && 0 <= k < |states| ==> AnsweredRight(config, StageOf(states[k], thread))
  }

  /** Over all interleavings of threads, invalidations and cleanups, every answer of the hasher is
      that of the overload without a cache, exactly if not all of this holds: two different API
      secrets are configured, some code has a hash under the previous one only, and the names of
      two settings clash. */
  lemma HasherRightExactlyIf(config: Config)
    requires InjectiveFingerprints(config.crypto) && config.expiry > 0 && !IsBlank(config.current)
    ensures AlwaysRight(config) <==> !CanMislead(config.crypto, config.names, config.current, config.previous)
  {
    HasherCoherentExactlyIf(config.crypto, config.names, config.current, config.previous);
    if CanMislead(config.crypto, config.names, config.current, config.previous) {
      var code, hash :| MatchesPreviousOnly(config.crypto, code, hash, config.current, config.previous.value);
      var a, b :| a in config.names && b in config.names && Clash(a, b);
      var states, steps := MisleadingRun(config, a, b, code, hash);
      assert !AnsweredRight(config, StageOf(states[|steps|], 0));
    } else {
      forall states: seq<HasherState>, steps: seq<Step>, k: int, thread: Thread | IsRun(config, states, steps) && 0 <= k < |states|
        ensures AnsweredRight(config, StageOf(states[k], thread))
      {
        RunsKeepInv(config, states, steps, k);
        assert StageRight(config, StageOf(states[k], thread), PcOf(states[k].inner, thread));
      }
    }
  }

  /** Names of one client suffice, with hashes that merely differ between the secrets. */
  lemma MisleadingInput() returns (config: Config)
    ensures config.names == iset{Name("a", "previous-api-secret:s"), Name("a", "s")}
    ensures InjectiveFingerprints(config.crypto) && !AlwaysRight(config)
  {
    var crypto := Crypto((secret, hash) => false, x => x, hash => Some(hash), (secret, code) => secret + code);
    config := Config(crypto, 1, iset{Name("a", "previous-api-secret:s"), Name("a", "s")}, "c", Some("p"));
    ClashingNames();
    assert !IsWhiteSpace("x"[0]) && !IsWhiteSpace("px"[0]) && !IsWhiteSpace("c"[0]) && !IsWhiteSpace("p"[0]);
    assert "p" + "x" == "px" && "c" + "x" == "cx" && "px"[0] != "cx"[0];
    assert MatchesPreviousOnly(crypto, "x", "px", "c", "p");
    HasherRightExactlyIf(config);
  }
}
