/**
 The cache of hash validation results (src/api/Fig.Api/Services/HashValidationCache.cs) and the
 code hasher that uses it (src/api/Fig.Api/Validators/CodeHasher.cs).

 BCrypt, SHA-256, HMAC and Base64 are parameters. The dictionary is concurrent: in the step
 system below every look-up, store and removal of a key is a step of its own.
 */
module HashCache {
  import opened Text

  datatype Crypto = Crypto(
    verify: (string, string) -> bool,        // BCrypt: secret, hash
    fingerprint: string -> string,           // SHA-256
    decode: string -> Option<string>,        // Base64; None is a FormatException
    hmac: (string, string) -> string)        // API secret, code

  /** A question to the cache. A code is hashed with an API secret, which is no part of the key. */
  datatype Call =
    | SecretCall(clientName: string, clientSecret: string, bcryptHash: string)
    | CodeCall(clientName: string, settingName: string, code: string, hash: string, apiSecret: string)

  datatype Entry = Entry(storedHash: string, fingerprint: string, isValid: bool, createdAt: int)

  type Cache = map<string, Entry>

  const CLIENT_SECRET_PREFIX := "client-secret:"
  const CODE_HASH_PREFIX := "code-hash:"

  function ClientSecretKey(clientName: string): string {
    CLIENT_SECRET_PREFIX + clientName
  }

  function CodeHashKey(clientName: string, settingName: string): string {
    CODE_HASH_PREFIX + clientName + ":" + settingName
  }

  function Key(call: Call): string {
    match call
    case SecretCall(clientName, _, _) => ClientSecretKey(clientName)
    case CodeCall(clientName, settingName, _, _, _) => CodeHashKey(clientName, settingName)
  }

  function StoredHash(call: Call): string {
    match call
    case SecretCall(_, _, bcryptHash) => bcryptHash
    case CodeCall(_, _, _, hash, _) => hash
  }

  function Fingerprint(c: Crypto, call: Call): string {
    c.fingerprint(if call.SecretCall? then call.clientSecret else call.code)
  }

  /** `ValidateCodeHashDirectly`. */
  function CodeMatches(c: Crypto, code: string, hash: string, apiSecret: string): bool {
    c.decode(hash).Some? && c.decode(c.hmac(apiSecret, code)).Some? && c.decode(hash) == c.decode(c.hmac(apiSecret, code))
  }

  /** The answer without a cache. */
  function Direct(c: Crypto, call: Call): bool {
    match call
    case SecretCall(_, clientSecret, bcryptHash) => c.verify(clientSecret, bcryptHash)
    case CodeCall(_, _, code, hash, apiSecret) => CodeMatches(c, code, hash, apiSecret)
  }

  predicate IsExpired(entry: Entry, expiry: int, now: int) {
    now - entry.createdAt > expiry
  }

  /** The entry answers the call. */
  predicate Answers(c: Crypto, entry: Entry, call: Call) {
    entry.storedHash == StoredHash(call) && entry.fingerprint == Fingerprint(c, call)
  }

  function Lookup(cache: Cache, key: string): Option<Entry> {
    if key in cache then Some(cache[key]) else None
  }

  predicate Hits(c: Crypto, expiry: int, found: Option<Entry>, call: Call, now: int) {
    found.Some? && !IsExpired(found.value, expiry, now) && Answers(c, found.value, call)
  }

  function NewEntry(c: Crypto, call: Call, now: int): Entry {
    Entry(StoredHash(call), Fingerprint(c, call), Direct(c, call), now)
  }

  /** A validation that nothing interrupts: its answer, and the cache it leaves. */
  function Validated(c: Crypto, expiry: int, cache: Cache, call: Call, now: int): (bool, Cache) {
    var found := Lookup(cache, Key(call));
    if Hits(c, expiry, found, call, now) then (found.value.isValid, cache)
    else (Direct(c, call), cache[Key(call) := NewEntry(c, call, now)])
  }

  // ----- when the cache is transparent

  /** Calls that an entry of the other would answer have the same answer. */
  ghost predicate Coherent(c: Crypto, calls: iset<Call>) {
    forall a, b {:trigger Direct(c, a), Direct(c, b)} :: a in calls && b in calls && SameEntry(c, a, b) ==> Direct(c, a) == Direct(c, b)
  }

  predicate SameEntry(c: Crypto, a: Call, b: Call) {
    Key(a) == Key(b) && StoredHash(a) == StoredHash(b) && Fingerprint(c, a) == Fingerprint(c, b)
  }

  /** The entry was made by a call. */
  ghost predicate MadeBy(c: Crypto, key: string, entry: Entry, call: Call) {
    key == Key(call) && Answers(c, entry, call) && entry.isValid == Direct(c, call)
  }

  ghost predicate Made(c: Crypto, calls: iset<Call>, key: string, entry: Entry) {
    exists call :: call in calls && MadeBy(c, key, entry, call)
  }

  /** Every entry was made by one of the calls. */
  ghost predicate Truthful(c: Crypto, calls: iset<Call>, cache: Cache) {
    forall key :: key in cache ==> Made(c, calls, key, cache[key])
  }

  lemma HitIsDirect(c: Crypto, calls: iset<Call>, entry: Entry, call: Call)
    requires Coherent(c, calls) && call in calls && Made(c, calls, Key(call), entry) && Answers(c, entry, call)
    ensures entry.isValid == Direct(c, call)
  {
    var maker :| maker in calls && MadeBy(c, Key(call), entry, maker);
    assert SameEntry(c, maker, call);
  }

  lemma StoreKeepsTruthful(c: Crypto, calls: iset<Call>, cache: Cache, call: Call, now: int)
    requires Truthful(c, calls, cache) && call in calls
    ensures Truthful(c, calls, cache[Key(call) := NewEntry(c, call, now)])
  {
    assert MadeBy(c, Key(call), NewEntry(c, call, now), call);
  }

  // ----- interleavings

  type Thread = nat

  datatype Pc =
    | Idle
    | Called(call: Call)
    | Looked(call: Call, found: Option<Entry>)  // after TryGetValue
    | Verified(call: Call, answer: bool)        // after the slow verification, before the store
    | Returned(call: Call, answer: bool)

  datatype Event =
    | Begin(thread: Thread, call: Call)
    | Look(thread: Thread)
    | Decide(thread: Thread, now: int)
    | Store(thread: Thread, now: int)
    | Remove(key: string)                       // one TryRemove of InvalidateClient or CleanupExpiredEntries

  datatype State = State(cache: Cache, threads: imap<Thread, Pc>)

  function PcOf(s: State, thread: Thread): Pc {
    if thread in s.threads then s.threads[thread] else Idle
  }

  function At(s: State, thread: Thread, pc: Pc): State {
    s.(threads := s.threads[thread := pc])
  }

  /** One atomic step of any thread, with calls out of a given set. */
  ghost predicate Next(c: Crypto, expiry: int, calls: iset<Call>, s: State, event: Event, s': State) {
    match event
    case Begin(thread, call) =>
      (PcOf(s, thread).Idle? || PcOf(s, thread).Returned?) && call in calls && s' == At(s, thread, Called(call))
    case Look(thread) =>
      var pc := PcOf(s, thread);
      pc.Called? && s' == At(s, thread, Looked(pc.call, Lookup(s.cache, Key(pc.call))))
    case Decide(thread, now) =>
      var pc := PcOf(s, thread);
      pc.Looked? &&
      s' == At(s, thread, if Hits(c, expiry, pc.found, pc.call, now) then Returned(pc.call, pc.found.value.isValid)
                          else Verified(pc.call, Direct(c, pc.call)))
    case Store(thread, now) =>
      var pc := PcOf(s, thread);
      pc.Verified? &&
      s' == At(s, thread, Returned(pc.call, pc.answer)).(
              cache := s.cache[Key(pc.call) := Entry(StoredHash(pc.call), Fingerprint(c, pc.call), pc.answer, now)])
    case Remove(key) =>
      s' == s.(cache := s.cache - {key})
  }

  const INITIAL := State(map[], imap[])

  ghost predicate IsRun(c: Crypto, expiry: int, calls: iset<Call>, states: seq<State>, events: seq<Event>) {
    && |states| == |events| + 1
    && states[0] == INITIAL
    && forall k :: 0 <= k < |events| ==> Next(c, expiry, calls, states[k], events[k], states[k + 1])
  }

  /** What a thread holds is right: a found entry was made by a call, an answer is direct. */
  ghost predicate PcRight(c: Crypto, calls: iset<Call>, pc: Pc) {
    match pc
    case Idle => true
    case Called(call) => call in calls
    case Looked(call, found) => call in calls && (found.Some? ==> Made(c, calls, Key(call), found.value))
    case Verified(call, answer) => call in calls && answer == Direct(c, call)
    case Returned(call, answer) => call in calls && answer == Direct(c, call)
  }

  ghost predicate Inv(c: Crypto, calls: iset<Call>, s: State) {
    Truthful(c, calls, s.cache) && forall thread :: PcRight(c, calls, PcOf(s, thread))
  }

  lemma AtKeepsRight(c: Crypto, calls: iset<Call>, s: State, thread: Thread, pc: Pc)
    requires Inv(c, calls, s) && PcRight(c, calls, pc)
    ensures Inv(c, calls, At(s, thread, pc))
  {
    forall t ensures PcRight(c, calls, PcOf(At(s, thread, pc), t)) {
      assert t != thread ==> PcOf(At(s, thread, pc), t) == PcOf(s, t);
    }
  }

  lemma StepKeepsInv(c: Crypto, expiry: int, calls: iset<Call>, s: State, event: Event, s': State)
    requires Coherent(c, calls) && Inv(c, calls, s) && Next(c, expiry, calls, s, event, s')
    ensures Inv(c, calls, s')
  {
    match event {
      case Begin(thread, call) => AtKeepsRight(c, calls, s, thread, Called(call));
      case Look(thread) =>
        var call := PcOf(s, thread).call;
        assert PcRight(c, calls, PcOf(s, thread));
        AtKeepsRight(c, calls, s, thread, Looked(call, Lookup(s.cache, Key(call))));
      case Decide(thread, now) =>
        var pc := PcOf(s, thread);
        assert PcRight(c, calls, pc);
        if Hits(c, expiry, pc.found, pc.call, now) {
          HitIsDirect(c, calls, pc.found.value, pc.call);
        }
        AtKeepsRight(c, calls, s, thread, PcOf(s', thread));
      case Store(thread, now) =>
        var pc := PcOf(s, thread);
        assert PcRight(c, calls, pc);
        AtKeepsRight(c, calls, s, thread, Returned(pc.call, pc.answer));
        StoreKeepsTruthful(c, calls, s.cache, pc.call, now);
        assert forall t :: PcOf(s', t) == PcOf(At(s, thread, Returned(pc.call, pc.answer)), t);
      case Remove(key) =>
        assert forall t :: PcOf(s', t) == PcOf(s, t);
    }
  }

  lemma {:induction false} RunsKeepInv(c: Crypto, expiry: int, calls: iset<Call>, states: seq<State>, events: seq<Event>, k: nat)
    requires Coherent(c, calls) && IsRun(c, expiry, calls, states, events) && k < |states|
    ensures Inv(c, calls, states[k])
  {
    if k > 0 {
      RunsKeepInv(c, expiry, calls, states, events, k - 1);
      StepKeepsInv(c, expiry, calls, states[k - 1], events[k - 1], states[k]);
    }
  }

  /** Every answer that any run gives is the answer without a cache. */
  ghost predicate Transparent(c: Crypto, expiry: int, calls: iset<Call>) {
    forall states, events, k, thread ::
      IsRun(c, expiry, calls, states, events) && 0 <= k < |states| ==> AnsweredRight(c, PcOf(states[k], thread))
  }

  ghost predicate AnsweredRight(c: Crypto, pc: Pc) {
    pc.Returned? ==> pc.answer == Direct(c, pc.call)
  }

  /** A run in which the entry of one call answers another. */
  lemma ReusingRun(c: Crypto, expiry: int, calls: iset<Call>, a: Call, b: Call) returns (states: seq<State>, events: seq<Event>)
    requires expiry > 0 && a in calls && b in calls && SameEntry(c, a, b)
    ensures IsRun(c, expiry, calls, states, events) && |states| == 8
    ensures PcOf(states[7], 0) == Returned(b, Direct(c, a))
  {
    var s1 := At(INITIAL, 0, Called(a));
    var s2 := At(s1, 0, Looked(a, None));
    var s3 := At(s2, 0, Verified(a, Direct(c, a)));
    var s4 := At(s3, 0, Returned(a, Direct(c, a))).(cache := map[Key(a) := NewEntry(c, a, 0)]);
    var s5 := At(s4, 0, Called(b));
    var s6 := At(s5, 0, Looked(b, Some(NewEntry(c, a, 0))));
    var s7 := At(s6, 0, Returned(b, Direct(c, a)));
    assert s4.cache == s3.cache[Key(a) := NewEntry(c, a, 0)];
    assert Next(c, expiry, calls, INITIAL, Begin(0, a), s1);
    assert Next(c, expiry, calls, s1, Look(0), s2);
    assert Next(c, expiry, calls, s2, Decide(0, 0), s3);
    assert Next(c, expiry, calls, s3, Store(0, 0), s4);
    assert Next(c, expiry, calls, s4, Begin(0, b), s5);
    assert Next(c, expiry, calls, s5, Look(0), s6);
    assert Next(c, expiry, calls, s6, Decide(0, 0), s7);
    states := [INITIAL, s1, s2, s3, s4, s5, s6, s7];
    events := [Begin(0, a), Look(0), Decide(0, 0), Store(0, 0), Begin(0, b), Look(0), Decide(0, 0)];
  }

  /** The cache is transparent over all interleavings of validations, invalidations and cleanups
      exactly if calls that share an entry have the same answer. */
  lemma TransparentExactlyIfCoherent(c: Crypto, expiry: int, calls: iset<Call>)
    requires expiry > 0
    ensures Transparent(c, expiry, calls) <==> Coherent(c, calls)
  {
    if Coherent(c, calls) {
      forall states, events, k, thread | IsRun(c, expiry, calls, states, events) && 0 <= k < |states|
        ensures AnsweredRight(c, PcOf(states[k], thread))
      {
        RunsKeepInv(c, expiry, calls, states, events, k);
        assert PcRight(c, calls, PcOf(states[k], thread));
      }
    }
    if Transparent(c, expiry, calls) {
      forall a, b | a in calls && b in calls && SameEntry(c, a, b) ensures Direct(c, a) == Direct(c, b) {
        var states, events := ReusingRun(c, expiry, calls, a, b);
        assert AnsweredRight(c, PcOf(states[7], 0));
      }
    }
  }

  // ----- which calls are coherent

  lemma KindsNeverCollide(clientName: string, otherName: string, settingName: string)
    ensures ClientSecretKey(clientName) != CodeHashKey(otherName, settingName)
  {
    assert ClientSecretKey(clientName)[1] == 'l' && CodeHashKey(otherName, settingName)[1] == 'o';
  }

  ghost predicate InjectiveFingerprints(c: Crypto) {
    forall x, y :: c.fingerprint(x) == c.fingerprint(y) ==> x == y
  }

  ghost predicate OneApiSecret(calls: iset<Call>, apiSecret: string) {
    forall call :: call in calls && call.CodeCall? ==> call.apiSecret == apiSecret
  }

  /** With one API secret every set of calls is coherent, even though the names of a client and
      a setting can be composed to the same key in several ways. */
  lemma OneApiSecretIsCoherent(c: Crypto, calls: iset<Call>, apiSecret: string)
    requires InjectiveFingerprints(c) && OneApiSecret(calls, apiSecret)
    ensures Coherent(c, calls)
  {
    forall a, b | a in calls && b in calls && SameEntry(c, a, b) ensures Direct(c, a) == Direct(c, b) {
      if a.SecretCall? && b.CodeCall? {
        KindsNeverCollide(a.clientName, b.clientName, b.settingName);
      } else if a.CodeCall? && b.SecretCall? {
        KindsNeverCollide(b.clientName, a.clientName, a.settingName);
      }
    }
  }

  // ----- the code hasher with a current and a previous API secret

  const PREVIOUS_SUFFIX := ":previous-api-secret"

  datatype Name = Name(client: string, setting: string)

  function CurrentCall(name: Name, code: string, hash: string, current: string): Call {
    CodeCall(name.client, name.setting, code, hash, current)
  }

  function PreviousCall(name: Name, code: string, hash: string, previous: string): Call {
    CodeCall(name.client + PREVIOUS_SUFFIX, name.setting, code, hash, previous)
  }

  predicate IsDifferentPreviousSecret(previous: Option<string>, current: string) {
    !IsNullOrBlank(previous) && previous != Some(current)
  }

  /** The calls that the code hasher makes for the named settings when it is answered right: under
      the previous secret it asks only what the current one does not match. */
  ghost predicate IsHasherCall(c: Crypto, names: iset<Name>, current: string, previous: Option<string>, call: Call) {
    && call.CodeCall? && !IsBlank(call.code) && !IsBlank(call.hash)
    && exists name :: name in names && MakesCall(c, name, current, previous, call)
  }

  predicate MakesCall(c: Crypto, name: Name, current: string, previous: Option<string>, call: Call)
    requires call.CodeCall?
  {
    || call == CurrentCall(name, call.code, call.hash, current)
    || (&& IsDifferentPreviousSecret(previous, current)
        && call == PreviousCall(name, call.code, call.hash, previous.value)
        && !CodeMatches(c, call.code, call.hash, current))
  }

  ghost function HasherCalls(c: Crypto, names: iset<Name>, current: string, previous: Option<string>): iset<Call> {
    iset call | IsHasherCall(c, names, current, previous, call)
  }

  /** A setting of one client shares its key with the previous-secret key of another. */
  ghost predicate Clash(a: Name, b: Name) {
    a.client + ":" + a.setting == b.client + PREVIOUS_SUFFIX + ":" + b.setting
  }

  ghost predicate Clashes(names: iset<Name>) {
    exists a, b :: a in names && b in names && Clash(a, b)
  }

  /** A hash of the code under the previous secret that is none under the current one. */
  predicate MatchesPreviousOnly(c: Crypto, code: string, hash: string, current: string, previous: string) {
    !IsBlank(code) && !IsBlank(hash) && CodeMatches(c, code, hash, previous) && !CodeMatches(c, code, hash, current)
  }

  ghost predicate SecretsDiffer(c: Crypto, current: string, previous: string) {
    exists code, hash :: MatchesPreviousOnly(c, code, hash, current, previous)
  }

  lemma ClashIsSameKey(a: Name, b: Name)
    ensures Clash(a, b) <==> CodeHashKey(a.client, a.setting) == CodeHashKey(b.client + PREVIOUS_SUFFIX, b.setting)
  {
    var x, y := a.client + ":" + a.setting, b.client + PREVIOUS_SUFFIX + ":" + b.setting;
    assert CodeHashKey(a.client, a.setting) == CODE_HASH_PREFIX + x;
    assert CodeHashKey(b.client + PREVIOUS_SUFFIX, b.setting) == CODE_HASH_PREFIX + y;
    assert (CODE_HASH_PREFIX + x)[|CODE_HASH_PREFIX|..] == x;
    assert (CODE_HASH_PREFIX + y)[|CODE_HASH_PREFIX|..] == y;
  }

  /** Entries for the previous secret share the key space of client and setting names, and two
      secrets are in use that tell some code apart. */
  ghost predicate CanMislead(c: Crypto, names: iset<Name>, current: string, previous: Option<string>) {
    IsDifferentPreviousSecret(previous, current) && Clashes(names) && SecretsDiffer(c, current, previous.value)
  }

  lemma SameEntrySameAnswer(c: Crypto, names: iset<Name>, current: string, previous: Option<string>, a: Call, b: Call)
    requires InjectiveFingerprints(c) && !CanMislead(c, names, current, previous)
    requires IsHasherCall(c, names, current, previous, a) && IsHasherCall(c, names, current, previous, b) && SameEntry(c, a, b)
    ensures Direct(c, a) == Direct(c, b)
  {
    var m :| m in names && MakesCall(c, m, current, previous, a);
    var n :| n in names && MakesCall(c, n, current, previous, b);
    ClashIsSameKey(m, n);
    ClashIsSameKey(n, m);
    if IsDifferentPreviousSecret(previous, current) && (Clash(m, n) || Clash(n, m)) {
      assert Clashes(names);
      assert !MatchesPreviousOnly(c, a.code, a.hash, current, previous.value);
    }
  }

  /** The calls of the code hasher are coherent exactly if its keys cannot mislead it. */
  lemma HasherCoherentExactlyIf(c: Crypto, names: iset<Name>, current: string, previous: Option<string>)
    requires InjectiveFingerprints(c)
    ensures Coherent(c, HasherCalls(c, names, current, previous)) <==> !CanMislead(c, names, current, previous)
  {
    var calls := HasherCalls(c, names, current, previous);
    if CanMislead(c, names, current, previous) {
      var code, hash :| MatchesPreviousOnly(c, code, hash, current, previous.value);
      var a, b :| a in names && b in names && Clash(a, b);
      ClashIsSameKey(a, b);
      var x, y := CurrentCall(a, code, hash, current), PreviousCall(b, code, hash, previous.value);
      assert MakesCall(c, a, current, previous, x) && MakesCall(c, b, current, previous, y);
      assert x in calls && y in calls && SameEntry(c, x, y);
      assert Direct(c, x) != Direct(c, y);
    } else {
      forall a, b | a in calls && b in calls && SameEntry(c, a, b) ensures Direct(c, a) == Direct(c, b) {
        SameEntrySameAnswer(c, names, current, previous, a, b);
      }
    }
  }

  /** Names that clash exist: one client can have them. */
  lemma ClashingNames()
    ensures Clash(Name("a", "previous-api-secret:s"), Name("a", "s"))
    ensures Clashes(iset{Name("a", "previous-api-secret:s"), Name("a", "s")})
  {
  }

  // ----- the classes

  function InvalidKey(clientName: string): string -> bool {
    (key: string) => key == ClientSecretKey(clientName) || CodeHashKey(clientName, "") <= key
  }

  /** The hash is the Base64 text of what the code's HMAC under the secret is the Base64 text of. */
  ghost predicate IsHashOf(c: Crypto, code: string, hash: string, apiSecret: string) {
    exists bytes :: c.decode(hash) == Some(bytes) && c.decode(c.hmac(apiSecret, code)) == Some(bytes)
  }

  lemma CodeMatchesIs(c: Crypto, code: string, hash: string, apiSecret: string)
    ensures CodeMatches(c, code, hash, apiSecret) <==> IsHashOf(c, code, hash, apiSecret)
  {
    if CodeMatches(c, code, hash, apiSecret) {
      assert c.decode(hash) == Some(c.decode(hash).value);
    }
  }

  /** An entry under the key that is no older than the expiry, made for the same hash and
      fingerprint, gives the answer and stays; otherwise the direct answer is given and stored. */
  ghost predicate IsCached(key: string, hash: string, fingerprint: string, expiry: int, now: int, direct: bool,
                           before: Cache, answer: bool, after: Cache)
  {
    if key in before && now - before[key].createdAt <= expiry && before[key].storedHash == hash && before[key].fingerprint == fingerprint
    then answer == before[key].isValid && after == before
    else answer == direct && after == before[key := Entry(hash, fingerprint, direct, now)]
  }

  class HashValidationCache {
    const crypto: Crypto
    const cacheExpiry: int
    const cacheEnabled: bool
    var cache: Cache

    constructor (crypto: Crypto, expiryMinutes: int)
      ensures this.crypto == crypto && cacheExpiry == expiryMinutes && cacheEnabled == (expiryMinutes > 0) && cache == map[]
    {
      this.crypto, cacheExpiry, cacheEnabled, cache := crypto, expiryMinutes, expiryMinutes > 0, map[];
    }

    method ValidateClientSecret(clientName: string, clientSecret: string, bcryptHash: string, now: int) returns (isValid: bool)
      modifies this
      ensures cacheEnabled ==> (isValid, cache) == Validated(crypto, cacheExpiry, old(cache), SecretCall(clientName, clientSecret, bcryptHash), now)
      ensures !cacheEnabled ==> isValid == crypto.verify(clientSecret, bcryptHash) && cache == old(cache)
      ensures cacheEnabled ==>
        IsCached("client-secret:" + clientName, bcryptHash, crypto.fingerprint(clientSecret), cacheExpiry, now,
                 crypto.verify(clientSecret, bcryptHash), old(cache), isValid, cache)
    {
      if !cacheEnabled {
        return crypto.verify(clientSecret, bcryptHash);
      }
      var cacheKey := ClientSecretKey(clientName);
      var secretFingerprint := crypto.fingerprint(clientSecret);
      if cacheKey in cache && !IsExpired(cache[cacheKey], cacheExpiry, now) {
        var entry := cache[cacheKey];
        if entry.storedHash == bcryptHash && entry.fingerprint == secretFingerprint {
          return entry.isValid;
        }
      }
      isValid := crypto.verify(clientSecret, bcryptHash);
      cache := cache[cacheKey := Entry(bcryptHash, secretFingerprint, isValid, now)];
    }

    method ValidateCodeHash(clientName: string, settingName: string, code: string, hash: string, apiSecret: string, now: int)
      returns (isValid: bool)
      modifies this
      ensures cacheEnabled ==>
        (isValid, cache) == Validated(crypto, cacheExpiry, old(cache), CodeCall(clientName, settingName, code, hash, apiSecret), now)
      ensures !cacheEnabled ==> isValid == CodeMatches(crypto, code, hash, apiSecret) && cache == old(cache)
      ensures cacheEnabled ==>
        IsCached("code-hash:" + clientName + ":" + settingName, hash, crypto.fingerprint(code), cacheExpiry, now,
                 IsHashOf(crypto, code, hash, apiSecret), old(cache), isValid, cache)
    {
      CodeMatchesIs(crypto, code, hash, apiSecret);
      if !cacheEnabled {
        return CodeMatches(crypto, code, hash, apiSecret);
      }
      var cacheKey := CodeHashKey(clientName, settingName);
      var codeFingerprint := crypto.fingerprint(code);
      if cacheKey in cache && !IsExpired(cache[cacheKey], cacheExpiry, now) {
        var entry := cache[cacheKey];
        if entry.storedHash == hash && entry.fingerprint == codeFingerprint {
          return entry.isValid;
        }
      }
      isValid := CodeMatches(crypto, code, hash, apiSecret);
      cache := cache[cacheKey := Entry(hash, codeFingerprint, isValid, now)];
    }

    /** Removes every entry that a validation for the client can have made, with any setting
        and either API secret for codes. */
    method InvalidateClient(clientName: string)
      modifies this
      ensures forall key :: key in cache <==>
                key in old(cache) && key != "client-secret:" + clientName && !("code-hash:" + clientName + ":" <= key)
      ensures forall key :: key in cache <==> key in old(cache) && !InvalidKey(clientName)(key)
      ensures forall key :: key in cache ==> cache[key] == old(cache)[key]
    {
      assert CodeHashKey(clientName, "") == "code-hash:" + clientName + ":";
      var keys := cache.Keys;
      while keys != {}
        invariant forall key :: key in cache <==> key in old(cache) && (key in keys || !InvalidKey(clientName)(key))
        invariant forall key :: key in cache ==> cache[key] == old(cache)[key]
        decreases keys
      {
        var key :| key in keys;
        keys := keys - {key};
        if key == ClientSecretKey(clientName) || CodeHashKey(clientName, "") <= key {
          cache := cache - {key};
        }
      }
    }

    method CleanupExpiredEntries(now: int)
      modifies this
      ensures cacheEnabled ==> forall key :: key in cache <==> key in old(cache) && now - old(cache)[key].createdAt <= cacheExpiry
      ensures forall key :: key in cache ==> key in old(cache) && cache[key] == old(cache)[key]
      ensures !cacheEnabled ==> cache == old(cache)
    {
      if !cacheEnabled {
        return;
      }
      var keys := cache.Keys;
      while keys != {}
        invariant forall key :: key in cache <==> key in old(cache) && (key in keys || !IsExpired(old(cache)[key], cacheExpiry, now))
        invariant forall key :: key in cache ==> cache[key] == old(cache)[key]
        decreases keys
      {
        var key :| key in keys;
        keys := keys - {key};
        if key in cache && IsExpired(cache[key], cacheExpiry, now) {
          cache := cache - {key};
        }
      }
    }
  }

  /** The keys that an invalidation of the client removes include those of all its settings, also
      under the previous API secret; but not the key of its previous client secret. */
  lemma InvalidatedKeys(clientName: string, settingName: string)
    ensures InvalidKey(clientName)(ClientSecretKey(clientName))
    ensures InvalidKey(clientName)(CodeHashKey(clientName, settingName))
    ensures InvalidKey(clientName)(CodeHashKey(clientName + PREVIOUS_SUFFIX, settingName))
    ensures !InvalidKey(clientName)(ClientSecretKey(clientName + ":previous"))
  {
    assert CodeHashKey(clientName, settingName) == CodeHashKey(clientName, "") + settingName;
    assert CodeHashKey(clientName + PREVIOUS_SUFFIX, settingName) == CodeHashKey(clientName, "") + PREVIOUS_SUFFIX[1..] + ":" + settingName;
    var key := ClientSecretKey(clientName + ":previous");
    assert |key| > |ClientSecretKey(clientName)|;
    assert key[1] == 'l' && CodeHashKey(clientName, "")[1] == 'o';
  }

  /** `IsValid(hash, code)`, which uses no cache. */
  function IsValidUncached(c: Crypto, hash: string, code: Option<string>, current: string, previous: Option<string>): bool {
    && !IsBlank(hash) && !IsNullOrBlank(code)
    && (CodeMatches(c, code.value, hash, current)
        || (IsDifferentPreviousSecret(previous, current) && CodeMatches(c, code.value, hash, previous.value)))
  }

  /** A code is valid exactly if neither it nor the hash is blank and the hash is the code's under the
      secret, or under a previous secret that is not blank and different. */
  lemma UncachedIs(c: Crypto, hash: string, code: Option<string>, current: string, previous: Option<string>)
    ensures IsValidUncached(c, hash, code, current, previous) <==>
              && !IsBlank(hash) && code.Some? && !IsBlank(code.value)
              && (|| IsHashOf(c, code.value, hash, current)
                  || (previous.Some? && !IsBlank(previous.value) && previous.value != current && IsHashOf(c, code.value, hash, previous.value)))
  {
    if code.Some? {
      CodeMatchesIs(c, code.value, hash, current);
      if previous.Some? {
        CodeMatchesIs(c, code.value, hash, previous.value);
      }
    }
  }

  lemma ValidatedIsDirect(c: Crypto, expiry: int, calls: iset<Call>, cache: Cache, call: Call, now: int)
    requires Coherent(c, calls) && Truthful(c, calls, cache) && call in calls
    ensures Validated(c, expiry, cache, call, now).0 == Direct(c, call)
    ensures Truthful(c, calls, Validated(c, expiry, cache, call, now).1)
  {
    var found := Lookup(cache, Key(call));
    if Hits(c, expiry, found, call, now) {
      HitIsDirect(c, calls, found.value, call);
    } else {
      StoreKeepsTruthful(c, calls, cache, call, now);
    }
  }

  class CodeHasher {
    const secret: string
    const previousSecret: Option<string>
    const hashValidationCache: HashValidationCache

    constructor (secret: string, previousSecret: Option<string>, hashValidationCache: HashValidationCache)
      ensures this.secret == secret && this.previousSecret == previousSecret && this.hashValidationCache == hashValidationCache
    {
      this.secret, this.previousSecret, this.hashValidationCache := secret, previousSecret, hashValidationCache;
    }

    /** The calls include those for this setting, they are coherent, and they made the cache. */
    ghost predicate Prepared(c: Crypto, calls: iset<Call>, cache: Cache, name: Name, hash: string, code: Option<string>) {
      && Coherent(c, calls) && Truthful(c, calls, cache)
      && (code.Some? ==> CurrentCall(name, code.value, hash, secret) in calls)
      && (code.Some? && previousSecret.Some? && !CodeMatches(c, code.value, hash, secret) ==>
            PreviousCall(name, code.value, hash, previousSecret.value) in calls)
    }

    /** `IsValid(clientName, settingName, hash, code)`. None stands for the exception when the
        API secret is not configured. If the calls that fill the cache are coherent, going
        through it makes no difference, whatever it already holds. */
    method IsValid(clientName: string, settingName: string, hash: string, code: Option<string>, now: int, ghost calls: iset<Call>)
      returns (answer: Option<bool>)
      modifies hashValidationCache
      ensures answer.None? <==> !IsBlank(hash) && !IsNullOrBlank(code) && IsBlank(secret)
      ensures answer.Some? && Prepared(hashValidationCache.crypto, calls, old(hashValidationCache.cache), Name(clientName, settingName), hash, code) ==>
        && Truthful(hashValidationCache.crypto, calls, hashValidationCache.cache)
        && answer.value == IsValidUncached(hashValidationCache.crypto, hash, code, secret, previousSecret)
    {
      if IsBlank(hash) || IsNullOrBlank(code) {
        return Some(false);
      }
      if IsBlank(secret) {
        return None;
      }
      ghost var name := Name(clientName, settingName);
      ghost var prepared := Prepared(hashValidationCache.crypto, calls, hashValidationCache.cache, name, hash, code);
      if prepared {
        ValidatedIsDirect(hashValidationCache.crypto, hashValidationCache.cacheExpiry, calls, hashValidationCache.cache,
                          CurrentCall(name, code.value, hash, secret), now);
      }
      var valid := hashValidationCache.ValidateCodeHash(clientName, settingName, code.value, hash, secret, now);
      if valid {
        return Some(true);
      }
      if !IsDifferentPreviousSecret(previousSecret, secret) {
        return Some(false);
      }
      if prepared {
        ValidatedIsDirect(hashValidationCache.crypto, hashValidationCache.cacheExpiry, calls, hashValidationCache.cache,
                          PreviousCall(name, code.value, hash, previousSecret.value), now);
      }
      valid := hashValidationCache.ValidateCodeHash(clientName + PREVIOUS_SUFFIX, settingName, code.value, hash, previousSecret.value, now);
      return Some(valid);
    }
  }
}
