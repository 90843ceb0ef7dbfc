/**
 The per-client registration lock and its background cleaner
 (src/api/Fig.Api/Services/ClientRegistrationLockService.cs).

 Any number of threads share one dictionary from client names to lock entries. Every
 dictionary, semaphore, counter and timestamp access is a step of its own, so that a run
 interleaves them in every possible way.
 */
module RegistrationLock {
  import opened Text

  type EntryId = nat

  const EXPIRATION: int := 30 * 60 * 10_000_000  // 30 minutes, in ticks

  /** One lock entry; `permits` is the current count of its one-permit semaphore, and
      `client` records the key that the entry was created for. */
  datatype Entry = Entry(client: string, permits: nat, disposed: bool, activeCount: int, lastAccess: int)

  /** The program points of a thread that has a reference to an entry. */
  datatype Point =
    // in AcquireLockAsync
    | Fetched    // GetOrAdd returned the entry
    | Waiting    // access time updated, before WaitAsync
    | Permitted  // WaitAsync returned
    | Holding    // active count raised, the caller owns the releaser
    // in LockReleaser.Dispose
    | Uncounted  // active count lowered
    | Stamped    // access time updated
    // in CleanupUnusedLocks
    | Seized     // Wait(0) succeeded
    | Clocked    // current time read
    | Counted    // active count was 0
    | Expired    // the entry is old enough
    | Verified   // the dictionary maps the key to this very entry
    | Removed    // TryRemove succeeded
    | Keeping    // about to release

  datatype Thread =
    | Idle
    | At(point: Point, name: string, e: EntryId, todo: seq<(string, EntryId)>, readTime: int)
    | Sweeping(todo: seq<(string, EntryId)>)  // the cleaner at the head of its loop
    | Overflowed                              // Release pushed a semaphore above its maximum of one

  datatype State = State(now: int, locks: map<string, EntryId>, entries: seq<Entry>, threads: seq<Thread>)

  datatype Event =
    | Call(name: string)  // an idle thread calls AcquireLockAsync
    | Sweep               // an idle thread calls CleanupUnusedLocks
    | Go                  // a thread performs its next operation
    | Cancel              // the cancellation token fires during WaitAsync
    | Tick(delta: nat)       // time passes

  predicate WellReferenced(s: State, t: Thread) {
    && (t.At? ==> t.e < |s.entries|)
    && (t.Sweeping? ==> forall k :: 0 <= k < |t.todo| ==> t.todo[k].1 < |s.entries|)
  }

  /** Whether the step is possible at all. Only a waiting thread can be blocked: WaitAsync
      returns when there is a permit and throws when the semaphore is disposed. */
  predicate Enabled(s: State, i: nat, ev: Event) {
    && i < |s.threads|
    && WellReferenced(s, s.threads[i])
    && (forall n :: n in s.locks ==> s.locks[n] < |s.entries|)
    && match ev {
         case Call(_) => s.threads[i].Idle?
         case Sweep => s.threads[i].Idle?
         case Cancel => s.threads[i].At? && s.threads[i].point.Waiting?
         case Tick(_) => true
         case Go =>
           && !s.threads[i].Idle? && !s.threads[i].Overflowed?
           && (s.threads[i].At? && s.threads[i].point.Waiting? ==>
                 s.entries[s.threads[i].e].permits > 0 || s.entries[s.threads[i].e].disposed)
       }
  }

  function Moved(s: State, i: nat, t: Thread): State
    requires i < |s.threads|
  {
    s.(threads := s.threads[i := t])
  }

  function Wrote(s: State, e: EntryId, entry: Entry): State
    requires e < |s.entries|
  {
    s.(entries := s.entries[e := entry])
  }

  /** `SemaphoreSlim.Release` on entry e by thread i, which then goes on as `next`. A
      disposed semaphore throws, which ends the operation the same way. */
  function Released(s: State, i: nat, e: EntryId, next: Thread): State
    requires i < |s.threads| && e < |s.entries|
  {
    var entry := s.entries[e];
    if entry.disposed then Moved(s, i, next)
    else if entry.permits >= 1 then Moved(s, i, Overflowed)
    else Moved(Wrote(s, e, entry.(permits := entry.permits + 1)), i, next)
  }

  /** `GetOrAdd`: the mapped entry, or a new one that becomes the mapped entry. */
  function Fetch(s: State, i: nat, name: string): State
    requires i < |s.threads|
  {
    if name in s.locks then Moved(s, i, At(Fetched, name, s.locks[name], [], 0))
    else
      var e := |s.entries|;
      Moved(s.(entries := s.entries + [Entry(name, 1, false, 0, s.now)], locks := s.locks[name := e]), i,
            At(Fetched, name, e, [], 0))
  }

  /** Every (key, value) pair of the dictionary, in some order. */
  function Snapshot(locks: map<string, EntryId>, names: seq<string>): (pairs: seq<(string, EntryId)>)
    requires forall k :: 0 <= k < |names| ==> names[k] in locks
    ensures |pairs| == |names|
    ensures forall k :: 0 <= k < |pairs| ==> pairs[k] == (names[k], locks[names[k]])
  {
    seq(|names|, k requires 0 <= k < |names| => (names[k], locks[names[k]]))
  }

  /** The next operation of thread i, which stands at t. */
  function Next(s: State, i: nat, t: Thread): State
    requires i < |s.threads| && s.threads[i] == t && WellReferenced(s, t) && !t.Idle? && !t.Overflowed?
  {
    match t {
      case Sweeping(todo) =>
        if todo == [] then Moved(s, i, Idle)
        else
          var (name, e) := todo[0];
          // Wait(0) stands before the try block: on a disposed semaphore the whole sweep ends.
          if s.entries[e].disposed then Moved(s, i, Idle)
          else if s.entries[e].permits == 0 then Moved(s, i, Sweeping(todo[1..]))
          else Moved(Wrote(s, e, s.entries[e].(permits := s.entries[e].permits - 1)), i, At(Seized, name, e, todo[1..], 0))
      case At(point, name, e, todo, readTime) =>
        var entry := s.entries[e];
        match point {
          case Fetched => Moved(Wrote(s, e, entry.(lastAccess := s.now)), i, t.(point := Waiting))
          case Waiting =>
            if entry.disposed || entry.permits == 0 then Moved(s, i, Idle)
            else Moved(Wrote(s, e, entry.(permits := entry.permits - 1)), i, t.(point := Permitted))
          case Permitted => Moved(Wrote(s, e, entry.(activeCount := entry.activeCount + 1)), i, t.(point := Holding))
          case Holding => Moved(Wrote(s, e, entry.(activeCount := entry.activeCount - 1)), i, t.(point := Uncounted))
          case Uncounted => Moved(Wrote(s, e, entry.(lastAccess := s.now)), i, t.(point := Stamped))
          case Stamped => Released(s, i, e, Idle)
          case Seized => Moved(s, i, t.(point := Clocked, readTime := s.now))
          case Clocked => Moved(s, i, t.(point := if entry.activeCount == 0 then Counted else Keeping))
          case Counted => Moved(s, i, t.(point := if readTime - entry.lastAccess > EXPIRATION then Expired else Keeping))
          case Expired => Moved(s, i, t.(point := if name in s.locks && s.locks[name] == e then Verified else Keeping))
          case Verified =>
            // TryRemove goes by key alone: it would remove whatever entry the key maps to.
            if name in s.locks then Moved(s.(locks := s.locks - {name}), i, t.(point := Removed))
            else Moved(s, i, t.(point := Keeping))
          case Removed => Moved(Wrote(s, e, entry.(disposed := true)), i, Sweeping(todo))
          case Keeping => Released(s, i, e, Sweeping(todo))
        }
    }
  }

  /** One step of thread i leads from s to s'. */
  ghost predicate Step(s: State, i: nat, ev: Event, s': State)
    requires Enabled(s, i, ev)
  {
    match ev {
      case Call(name) => s' == if IsBlank(name) then s else Fetch(s, i, name)
      case Sweep =>
        exists names: seq<string> {:trigger Snapshot(s.locks, names)} ::
          && (forall k :: 0 <= k < |names| ==> names[k] in s.locks)
          && (forall n :: n in s.locks ==> n in names)
          && s' == Moved(s, i, Sweeping(Snapshot(s.locks, names)))
      case Cancel => s' == Moved(s, i, Idle)
      case Tick(delta) => s' == s.(now := s.now + delta)
      case Go => s' == Next(s, i, s.threads[i])
    }
  }

  ghost predicate Init(s: State) {
    s.locks == map[] && s.entries == [] && forall i :: 0 <= i < |s.threads| ==> s.threads[i].Idle?
  }

  /** A run: from an initial state, each state follows from the one before by one step. */
  ghost predicate Run(run: seq<State>) {
    && |run| > 0 && Init(run[0])
    && forall k :: 0 < k < |run| ==> Steps(run[k - 1], run[k])
  }

  ghost predicate Steps(s: State, s': State) {
    exists i: nat, ev :: Enabled(s, i, ev) && Step(s, i, ev, s')
  }

  // ----- the inductive invariant

  /** The thread has taken entry e's permit and not given it back. */
  predicate HasPermit(t: Thread, e: EntryId) {
    t.At? && !t.point.Fetched? && !t.point.Waiting? && t.e == e
  }

  /** The thread has raised entry e's active count and not lowered it. */
  predicate IsActive(t: Thread, e: EntryId) {
    t.At? && t.point.Holding? && t.e == e
  }

  ghost function Holders(s: State, e: EntryId): set<nat> {
    set i | 0 <= i < |s.threads| && HasPermit(s.threads[i], e)
  }

  ghost function Active(s: State, e: EntryId): set<nat> {
    set i | 0 <= i < |s.threads| && IsActive(s.threads[i], e)
  }

  predicate Mapped(s: State, e: EntryId)
    requires e < |s.entries|
  {
    s.entries[e].client in s.locks && s.locks[s.entries[e].client] == e
  }

  ghost predicate LocksInv(s: State) {
    forall n :: n in s.locks ==>
      s.locks[n] < |s.entries| && s.entries[s.locks[n]].client == n && !s.entries[s.locks[n]].disposed
  }

  ghost predicate EntryInv(s: State, e: EntryId)
    requires e < |s.entries|
  {
    && s.entries[e].activeCount == |Active(s, e)|
    && (if s.entries[e].disposed then s.entries[e].permits == 0 && Holders(s, e) == {}
        else s.entries[e].permits + |Holders(s, e)| == 1)
    && (s.entries[e].permits > 0 ==> Mapped(s, e))
  }

  ghost predicate ThreadInv(s: State, t: Thread) {
    && !t.Overflowed?
    && (t.At? ==> t.e < |s.entries| && s.entries[t.e].client == t.name)
    && (t.At? && HasPermit(t, t.e) ==> (Mapped(s, t.e) <==> !t.point.Removed?))
    && (t.At? || t.Sweeping? ==> TodoInv(s, t.todo))
  }

  predicate TodoInv(s: State, todo: seq<(string, EntryId)>) {
    forall k :: 0 <= k < |todo| ==> todo[k].1 < |s.entries| && s.entries[todo[k].1].client == todo[k].0
  }

  ghost predicate Inv(s: State) {
    && LocksInv(s)
    && (forall e :: 0 <= e < |s.entries| ==> EntryInv(s, e))
    && (forall i :: 0 <= i < |s.threads| ==> ThreadInv(s, s.threads[i]))
  }

  lemma HoldersAfter(s: State, s': State, i: nat, t: Thread, e: EntryId)
    requires i < |s.threads| && s'.threads == s.threads[i := t]
    ensures Holders(s', e) == Holders(s, e) - {i} + if HasPermit(t, e) then {i} else {}
    ensures Active(s', e) == Active(s, e) - {i} + if IsActive(t, e) then {i} else {}
  {
  }

  /** An entry has at most one holder, and while it has one, no permit is free. */
  lemma OnlyHolder(s: State, e: EntryId, i: nat, j: nat)
    requires Inv(s) && e < |s.entries| && i in Holders(s, e) && j in Holders(s, e)
    ensures i == j && Holders(s, e) == {i}
    ensures s.entries[e].permits == 0 && !s.entries[e].disposed
  {
    assert EntryInv(s, e);
    assert |Holders(s, e) - {i}| == |Holders(s, e)| - 1 <= 0;
    assert Holders(s, e) - {i} == {};
  }

  lemma ActiveAreHolders(s: State, e: EntryId)
    ensures Active(s, e) <= Holders(s, e)
  {
  }

  lemma EntryKept(s: State, s': State, e: EntryId)
    requires e < |s.entries| && e < |s'.entries| && s'.entries[e] == s.entries[e] && EntryInv(s, e)
    requires Holders(s', e) == Holders(s, e) && Active(s', e) == Active(s, e) && Mapped(s', e) == Mapped(s, e)
    ensures EntryInv(s', e)
  {
  }

  /** Entries are never dropped and never change their client. */
  predicate SameClients(s: State, s': State) {
    |s.entries| <= |s'.entries| && forall e :: 0 <= e < |s.entries| ==> s'.entries[e].client == s.entries[e].client
  }

  lemma ThreadKept(s: State, s': State, t: Thread)
    requires ThreadInv(s, t) && SameClients(s, s')
    requires t.At? && HasPermit(t, t.e) ==> Mapped(s', t.e) == Mapped(s, t.e)
    ensures ThreadInv(s', t)
  {
  }

  lemma NoneBefore(s: State, i: nat, e: EntryId)
    requires i < |s.threads| && !HasPermit(s.threads[i], e)
    ensures i !in Holders(s, e) && i !in Active(s, e)
  {
  }

  lemma HoldersSame(s: State, s': State, i: nat, t: Thread, e: EntryId)
    requires i < |s.threads| && s'.threads == s.threads[i := t]
    requires !HasPermit(s.threads[i], e) && !HasPermit(t, e)
    ensures Holders(s', e) == Holders(s, e) && Active(s', e) == Active(s, e)
  {
    HoldersAfter(s, s', i, t, e);
    NoneBefore(s, i, e);
  }

  lemma OtherEntryKept(s: State, s': State, i: nat, t: Thread, e: EntryId)
    requires i < |s.threads| && s'.threads == s.threads[i := t] && e < |s.entries| && e < |s'.entries|
    requires s'.entries[e] == s.entries[e] && EntryInv(s, e) && Mapped(s', e) == Mapped(s, e)
    requires !HasPermit(s.threads[i], e) && !HasPermit(t, e)
    ensures EntryInv(s', e)
  {
    HoldersSame(s, s', i, t, e);
    EntryKept(s, s', e);
  }

  lemma ThreadsKept(s: State, s': State, i: nat, t: Thread)
    requires i < |s.threads| && s'.threads == s.threads[i := t] && SameClients(s, s') && s'.locks == s.locks
    requires ThreadInv(s, t) && forall j :: 0 <= j < |s.threads| ==> ThreadInv(s, s.threads[j])
    ensures forall j :: 0 <= j < |s'.threads| ==> ThreadInv(s', s'.threads[j])
  {
    forall j | 0 <= j < |s'.threads| ensures ThreadInv(s', s'.threads[j]) {
      ThreadKept(s, s', s'.threads[j]);
    }
  }

  /** The step writes entry e0 and moves thread i: the invariant need only be checked there. */
  lemma LocalStepKeepsInv(s: State, i: nat, e0: EntryId, entry: Entry, t: Thread)
    requires Inv(s) && i < |s.threads| && e0 < |s.entries|
    requires entry.client == s.entries[e0].client && (entry.disposed ==> s.entries[e0].disposed || !Mapped(s, e0))
    requires s.threads[i].At? ==> s.threads[i].e == e0 || !HasPermit(s.threads[i], s.threads[i].e)
    requires t.At? ==> t.e == e0 || !HasPermit(t, t.e)
    requires ThreadInv(s, t)
    requires EntryInv(Moved(Wrote(s, e0, entry), i, t), e0)
    ensures Inv(Moved(Wrote(s, e0, entry), i, t))
  {
    var s' := Moved(Wrote(s, e0, entry), i, t);
    ThreadsKept(s, s', i, t);
    forall e | 0 <= e < |s'.entries| ensures EntryInv(s', e) {
      if e != e0 { OtherEntryKept(s, s', i, t, e); }
    }
  }

  /** A thread that holds no permit before or after changes nothing else. */
  lemma MoveKeepsInv(s: State, i: nat, t: Thread)
    requires Inv(s) && i < |s.threads| && ThreadInv(s, t)
    requires s.threads[i].At? ==> !HasPermit(s.threads[i], s.threads[i].e)
    requires t.At? ==> !HasPermit(t, t.e)
    ensures Inv(Moved(s, i, t))
  {
    var s' := Moved(s, i, t);
    ThreadsKept(s, s', i, t);
    forall e | 0 <= e < |s'.entries| ensures EntryInv(s', e) {
      OtherEntryKept(s, s', i, t, e);
    }
  }

  lemma FetchKeepsInv(s: State, i: nat, name: string)
    requires Inv(s) && i < |s.threads| && s.threads[i].Idle?
    ensures Inv(Fetch(s, i, name))
  {
    var s' := Fetch(s, i, name);
    if name in s.locks {
      MoveKeepsInv(s, i, At(Fetched, name, s.locks[name], [], 0));
    } else {
      var added := |s.entries|;
      var s1 := s.(entries := s'.entries, locks := s'.locks);
      assert Inv(s1) by {
        forall e | 0 <= e < |s1.entries| ensures EntryInv(s1, e) {
          if e < added {
            assert EntryInv(s, e);
            assert Holders(s1, e) == Holders(s, e) && Active(s1, e) == Active(s, e);
          } else {
            forall j | 0 <= j < |s.threads| ensures !HasPermit(s.threads[j], added) && !IsActive(s.threads[j], added) {
              assert ThreadInv(s, s.threads[j]);
            }
            assert Holders(s1, added) == {} && Active(s1, added) == {};
          }
        }
        forall j | 0 <= j < |s1.threads| ensures ThreadInv(s1, s1.threads[j]) {
          assert ThreadInv(s, s.threads[j]);
        }
      }
      MoveKeepsInv(s1, i, At(Fetched, name, added, [], 0));
    }
  }

  /** A step of a thread that owns entry e's permit and keeps owning it. */
  lemma OwnerStepKeepsInv(s: State, i: nat, e: EntryId, entry: Entry, t: Thread)
    requires Inv(s) && i < |s.threads| && e < |s.entries| && HasPermit(s.threads[i], e) && HasPermit(t, e)
    requires ThreadInv(s, t)
    requires entry.client == s.entries[e].client && entry.permits == s.entries[e].permits && !entry.disposed
    requires entry.activeCount == s.entries[e].activeCount - (if IsActive(s.threads[i], e) then 1 else 0) + (if IsActive(t, e) then 1 else 0)
    ensures Inv(Moved(Wrote(s, e, entry), i, t))
  {
    var s' := Moved(Wrote(s, e, entry), i, t);
    assert i in Holders(s, e);
    OnlyHolder(s, e, i, i);
    HoldersAfter(s, s', i, t, e);
    ActiveAreHolders(s, e);
    assert EntryInv(s, e);
    assert Active(s, e) == if IsActive(s.threads[i], e) then {i} else {};
    assert Active(s', e) == if IsActive(t, e) then {i} else {};
    LocalStepKeepsInv(s, i, e, entry, t);
  }

  /** Taking the free permit of an entry. */
  lemma TakeKeepsInv(s: State, i: nat, e: EntryId, t: Thread)
    requires Inv(s) && i < |s.threads| && e < |s.entries| && s.entries[e].permits > 0
    requires s.threads[i].At? ==> !HasPermit(s.threads[i], s.threads[i].e)
    requires HasPermit(t, e) && !IsActive(t, e) && (Mapped(s, e) ==> ThreadInv(s, t))
    ensures Inv(Moved(Wrote(s, e, s.entries[e].(permits := s.entries[e].permits - 1)), i, t))
  {
    var entry := s.entries[e].(permits := s.entries[e].permits - 1);
    var s' := Moved(Wrote(s, e, entry), i, t);
    HoldersAfter(s, s', i, t, e);
    ActiveAreHolders(s, e);
    assert EntryInv(s, e);
    assert |Holders(s, e)| == 0;
    assert Holders(s', e) == {i} && Active(s', e) == Active(s, e);
    LocalStepKeepsInv(s, i, e, entry, t);
  }

  lemma SoleHolderLeaves(s: State, s': State, i: nat, t: Thread, e: EntryId)
    requires i < |s.threads| && s'.threads == s.threads[i := t]
    requires Holders(s, e) == {i} && !IsActive(s.threads[i], e) && !HasPermit(t, e)
    ensures Holders(s', e) == {} && Active(s', e) == {} && Active(s, e) == {}
  {
    HoldersAfter(s, s', i, t, e);
    ActiveAreHolders(s, e);
    assert i !in Active(s, e);
  }

  /** Giving the permit back never overflows the semaphore. */
  lemma ReleaseKeepsInv(s: State, i: nat, e: EntryId, t: Thread)
    requires Inv(s) && i < |s.threads| && e < |s.entries|
    requires HasPermit(s.threads[i], e) && !IsActive(s.threads[i], e) && !s.threads[i].point.Removed?
    requires ThreadInv(s, t) && !t.At?
    ensures Inv(Released(s, i, e, t)) && Released(s, i, e, t).threads[i] == t
  {
    assert i in Holders(s, e);
    OnlyHolder(s, e, i, i);
    var entry := s.entries[e].(permits := 1);
    var s' := Moved(Wrote(s, e, entry), i, t);
    SoleHolderLeaves(s, s', i, t, e);
    assert EntryInv(s, e) && ThreadInv(s, s.threads[i]);
    assert Released(s, i, e, t) == s';
    LocalStepKeepsInv(s, i, e, entry, t);
  }

  /** TryRemove takes out the entry whose permit the cleaner holds: no other thread can have
      changed the mapping since the cleaner compared it. */
  lemma RemoveKeepsInv(s: State, i: nat, t: Thread)
    requires Inv(s) && i < |s.threads| && s.threads[i].At? && s.threads[i].point.Verified? && t == s.threads[i].(point := Removed)
    ensures t.name in s.locks && s.locks[t.name] == t.e
    ensures Inv(Moved(s.(locks := s.locks - {t.name}), i, t))
  {
    var s' := Moved(s.(locks := s.locks - {t.name}), i, t);
    assert ThreadInv(s, s.threads[i]) && i in Holders(s, t.e);
    OnlyHolder(s, t.e, i, i);
    RemovalKeepsThreads(s, s', i, t);
    forall e | 0 <= e < |s'.entries| ensures EntryInv(s', e) {
      if e == t.e {
        HoldersAfter(s, s', i, t, e);
        ActiveAreHolders(s, e);
        assert Holders(s', e) == Holders(s, e) && Active(s', e) == Active(s, e) && EntryInv(s, e);
      } else {
        OtherEntryKept(s, s', i, t, e);
      }
    }
  }

  lemma RemovalKeepsThreads(s: State, s': State, i: nat, t: Thread)
    requires Inv(s) && i < |s.threads| && t.At? && t.e < |s.entries| && Holders(s, t.e) == {i} && t.point.Removed?
    requires s.entries[t.e].client == t.name && TodoInv(s, t.todo)
    requires s' == Moved(s.(locks := s.locks - {t.name}), i, t)
    requires t.name in s.locks && s.locks[t.name] == t.e
    ensures forall j :: 0 <= j < |s'.threads| ==> ThreadInv(s', s'.threads[j])
  {
    forall j | 0 <= j < |s'.threads| ensures ThreadInv(s', s'.threads[j]) {
      if j != i {
        var u := s.threads[j];
        assert ThreadInv(s, u);
        if u.At? && HasPermit(u, u.e) {
          assert j in Holders(s, u.e);
          assert Mapped(s', u.e) == Mapped(s, u.e);
        }
        ThreadKept(s, s', u);
      }
    }
  }

  /** Disposing the removed entry. */
  lemma DisposeKeepsInv(s: State, i: nat, e: EntryId)
    requires Inv(s) && i < |s.threads| && s.threads[i].At? && s.threads[i].point.Removed? && s.threads[i].e == e
    ensures e < |s.entries| && Inv(Moved(Wrote(s, e, s.entries[e].(disposed := true)), i, Sweeping(s.threads[i].todo)))
  {
    assert ThreadInv(s, s.threads[i]) && i in Holders(s, e);
    OnlyHolder(s, e, i, i);
    var entry := s.entries[e].(disposed := true);
    var t := Sweeping(s.threads[i].todo);
    var s' := Moved(Wrote(s, e, entry), i, t);
    SoleHolderLeaves(s, s', i, t, e);
    assert EntryInv(s, e);
    LocalStepKeepsInv(s, i, e, entry, t);
  }

  lemma SweepKeepsInv(s: State, i: nat, t: Thread)
    requires Inv(s) && i < |s.threads| && s.threads[i] == t && WellReferenced(s, t) && t.Sweeping?
    ensures Inv(Next(s, i, t))
  {
    var t' := Next(s, i, t).threads[i];
    assert ThreadInv(s, t);
    if t'.At? {
      TakeKeepsInv(s, i, t'.e, t');
    } else {
      MoveKeepsInv(s, i, t');
    }
  }

  lemma FetchedKeepsInv(s: State, i: nat, t: Thread)
    requires Inv(s) && i < |s.threads| && s.threads[i] == t && t.At? && t.e < |s.entries| && t.point.Fetched?
    ensures Inv(Next(s, i, t))
  {
    var s' := Next(s, i, t);
    assert EntryInv(s, t.e) && ThreadInv(s, t);
    HoldersAfter(s, s', i, t.(point := Waiting), t.e);
    NoneBefore(s, i, t.e);
    LocalStepKeepsInv(s, i, t.e, s'.entries[t.e], t.(point := Waiting));
  }

  lemma WaitingKeepsInv(s: State, i: nat, t: Thread)
    requires Inv(s) && i < |s.threads| && s.threads[i] == t && t.At? && t.e < |s.entries| && t.point.Waiting?
    ensures Inv(Next(s, i, t))
  {
    assert EntryInv(s, t.e) && ThreadInv(s, t);
    if s.entries[t.e].permits > 0 {
      TakeKeepsInv(s, i, t.e, t.(point := Permitted));
    } else {
      MoveKeepsInv(s, i, Idle);
    }
  }

  /** The steps of an owner that neither release, remove nor dispose. */
  lemma OwnerKeepsInv(s: State, i: nat, t: Thread)
    requires Inv(s) && i < |s.threads| && s.threads[i] == t && t.At? && t.e < |s.entries|
    requires t.point in {Permitted, Holding, Uncounted, Seized, Clocked, Counted, Expired}
    ensures Inv(Next(s, i, t))
  {
    var s' := Next(s, i, t);
    var t' := s'.threads[i];
    assert ThreadInv(s, t) && i in Holders(s, t.e);
    OnlyHolder(s, t.e, i, i);
    assert s' == Moved(Wrote(s, t.e, s'.entries[t.e]), i, t');
    OwnerStepKeepsInv(s, i, t.e, s'.entries[t.e], t');
  }

  lemma NextKeepsInv(s: State, i: nat, t: Thread)
    requires Inv(s) && i < |s.threads| && s.threads[i] == t && WellReferenced(s, t) && !t.Idle? && !t.Overflowed?
    ensures Inv(Next(s, i, t))
  {
    assert ThreadInv(s, t);
    if t.Sweeping? {
      SweepKeepsInv(s, i, t);
    } else {
      match t.point {
        case Fetched => FetchedKeepsInv(s, i, t);
        case Waiting => WaitingKeepsInv(s, i, t);
        case Stamped => ReleaseKeepsInv(s, i, t.e, Idle);
        case Verified => RemoveKeepsInv(s, i, t.(point := Removed));
        case Removed => DisposeKeepsInv(s, i, t.e);
        case Keeping => ReleaseKeepsInv(s, i, t.e, Sweeping(t.todo));
        case _ => OwnerKeepsInv(s, i, t);
      }
    }
  }

  /** Every step keeps the invariant. */
  lemma StepKeepsInv(s: State, i: nat, ev: Event, s': State)
    requires Inv(s) && Enabled(s, i, ev) && Step(s, i, ev, s')
    ensures Inv(s')
  {
    match ev {
      case Call(name) =>
        if !IsBlank(name) { FetchKeepsInv(s, i, name); }
      case Sweep =>
        MoveKeepsInv(s, i, s'.threads[i]);
      case Cancel => MoveKeepsInv(s, i, Idle);
      case Tick(_) => TickKeepsInv(s, s');
      case Go => NextKeepsInv(s, i, s.threads[i]);
    }
  }

  lemma TickKeepsInv(s: State, s': State)
    requires Inv(s) && s' == s.(now := s'.now)
    ensures Inv(s')
  {
    forall e | 0 <= e < |s'.entries| ensures EntryInv(s', e) {
      assert Holders(s', e) == Holders(s, e) && Active(s', e) == Active(s, e);
      EntryKept(s, s', e);
    }
    forall j | 0 <= j < |s'.threads| ensures ThreadInv(s', s'.threads[j]) {
      ThreadKept(s, s', s.threads[j]);
    }
  }

  // ----- what holds in every run

  lemma {:induction false} ReachableInv(run: seq<State>, k: nat)
    requires Run(run) && k < |run|
    ensures Inv(run[k])
  {
    if k == 0 {
      var s := run[0];
      assert forall i :: 0 <= i < |s.threads| ==> ThreadInv(s, s.threads[i]);
    } else {
      ReachableInv(run, k - 1);
      assert Steps(run[k - 1], run[k]);
      var i: nat, ev :| Enabled(run[k - 1], i, ev) && Step(run[k - 1], i, ev, run[k]);
      StepKeepsInv(run[k - 1], i, ev, run[k]);
    }
  }

  /** The thread is inside the critical section for `name`: WaitAsync has returned and
      Dispose has not yet released. The caller's own work lies at Holding. */
  predicate InCriticalSection(t: Thread, name: string) {
    t.At? && t.name == name && t.point in {Permitted, Holding, Uncounted, Stamped}
  }

  /** The cleaner has taken the entry's permit and not given it back or disposed it. */
  predicate Cleaning(t: Thread, e: EntryId) {
    t.At? && t.e == e && t.point in {Seized, Clocked, Counted, Expired, Verified, Removed, Keeping}
  }

  /** At most one thread is in the critical section of a client name, even when the name's
      entry is removed and created again under references that went stale. */
  lemma MutualExclusion(run: seq<State>, k: nat, name: string, i: nat, j: nat)
    requires Run(run) && k < |run| && i < |run[k].threads| && j < |run[k].threads|
    requires InCriticalSection(run[k].threads[i], name) && InCriticalSection(run[k].threads[j], name)
    ensures i == j
    ensures name in run[k].locks && run[k].locks[name] == run[k].threads[i].e
  {
    ReachableInv(run, k);
    var s := run[k];
    assert ThreadInv(s, s.threads[i]) && ThreadInv(s, s.threads[j]);
    assert s.threads[i].e == s.locks[name] == s.threads[j].e;
    assert i in Holders(s, s.locks[name]) && j in Holders(s, s.locks[name]);
    OnlyHolder(s, s.locks[name], i, j);
  }

  /** Permit accounting: the free permit and the holders of a live entry, a cleaner among
      them, make exactly one; a disposed entry has neither; and the active count is the number
      of callers that own a releaser. */
  lemma PermitAccounting(run: seq<State>, k: nat, e: EntryId)
    requires Run(run) && k < |run| && e < |run[k].entries|
    ensures run[k].entries[e].permits + |Holders(run[k], e)| == if run[k].entries[e].disposed then 0 else 1
    ensures run[k].entries[e].activeCount == |Active(run[k], e)| <= 1
  {
    ReachableInv(run, k);
    assert EntryInv(run[k], e);
    ActiveAreHolders(run[k], e);
    if i, j :| i in Active(run[k], e) && j in Active(run[k], e) && i != j {
      OnlyHolder(run[k], e, i, j);
    }
    if i :| i in Active(run[k], e) {
      OnlyHolder(run[k], e, i, i);
      assert Active(run[k], e) == {i};
    }
  }

  /** While a cleaner holds the permit, the active count is 0, so the test of it never fails. */
  lemma CleanerSeesNoActiveUser(run: seq<State>, k: nat, i: nat, e: EntryId)
    requires Run(run) && k < |run| && i < |run[k].threads| && Cleaning(run[k].threads[i], e)
    ensures e < |run[k].entries| && run[k].entries[e].activeCount == 0
    ensures run[k].threads[i].point.Clocked? ==> Next(run[k], i, run[k].threads[i]).threads[i].point.Counted?
  {
    ReachableInv(run, k);
    assert ThreadInv(run[k], run[k].threads[i]) && i in Holders(run[k], e);
    OnlyHolder(run[k], e, i, i);
    ActiveAreHolders(run[k], e);
    assert EntryInv(run[k], e);
    assert Active(run[k], e) == {};
  }

  /** TryRemove, which goes by key only, removes the very entry that this cleaner holds and
      compared, and it never fails. */
  lemma RemovalTakesOwnEntry(run: seq<State>, k: nat, i: nat)
    requires Run(run) && k < |run| && i < |run[k].threads|
    requires run[k].threads[i].At? && run[k].threads[i].point.Verified?
    ensures var t := run[k].threads[i];
            && t.name in run[k].locks && run[k].locks[t.name] == t.e && t.e < |run[k].entries|
            && Next(run[k], i, t).threads[i].point.Removed?
  {
    ReachableInv(run, k);
    assert ThreadInv(run[k], run[k].threads[i]);
  }

  /** What one step may do to one entry: it stays disposed, and its access time stays or
      becomes the present. */
  predicate EntryStep(now: int, before: Entry, after: Entry) {
    (before.disposed ==> after.disposed) && after.lastAccess in {before.lastAccess, now}
  }

  predicate EntriesStep(s: State, s': State) {
    && s.now <= s'.now && |s.entries| <= |s'.entries|
    && (forall e :: 0 <= e < |s.entries| ==> EntryStep(s.now, s.entries[e], s'.entries[e]))
    && (forall e :: |s.entries| <= e < |s'.entries| ==> s'.entries[e].lastAccess == s.now)
  }

  lemma NextEntriesStep(s: State, i: nat, t: Thread)
    requires i < |s.threads| && s.threads[i] == t && WellReferenced(s, t) && !t.Idle? && !t.Overflowed?
    ensures EntriesStep(s, Next(s, i, t))
  {
    if t.At? {
      assert forall e :: 0 <= e < |s.entries| && e != t.e ==> Next(s, i, t).entries[e] == s.entries[e];
    }
  }

  lemma StepIsEntriesStep(s: State, s': State)
    requires Steps(s, s')
    ensures EntriesStep(s, s')
  {
    var i: nat, ev :| Enabled(s, i, ev) && Step(s, i, ev, s');
    if ev.Go? {
      NextEntriesStep(s, i, s.threads[i]);
    }
  }

  lemma RunIsEntriesSteps(run: seq<State>)
    requires Run(run)
    ensures forall j :: 0 < j < |run| ==> EntriesStep(run[j - 1], run[j])
  {
    forall j | 0 < j < |run| ensures EntriesStep(run[j - 1], run[j]) {
      StepIsEntriesStep(run[j - 1], run[j]);
    }
  }

  lemma {:induction false} StaysDisposed(run: seq<State>, k: nat, m: nat, e: EntryId)
    requires forall j :: 0 < j < |run| ==> EntriesStep(run[j - 1], run[j])
    requires k <= m < |run| && e < |run[k].entries| && run[k].entries[e].disposed
    ensures e < |run[m].entries| && run[m].entries[e].disposed
  {
    if m > k {
      StaysDisposed(run, k, m - 1, e);
      assert EntryStep(run[m - 1].now, run[m - 1].entries[e], run[m].entries[e]);
    }
  }

  /** A disposed entry stays disposed, out of the dictionary, and is never acquired again. */
  lemma DisposedNeverAcquired(run: seq<State>, k: nat, m: nat, e: EntryId)
    requires Run(run) && k <= m < |run| && e < |run[k].entries| && run[k].entries[e].disposed
    ensures e < |run[m].entries| && run[m].entries[e].disposed
    ensures Holders(run[m], e) == {} && forall name :: name in run[m].locks ==> run[m].locks[name] != e
  {
    RunIsEntriesSteps(run);
    StaysDisposed(run, k, m, e);
    ReachableInv(run, m);
    assert EntryInv(run[m], e);
  }

  /** No semaphore is ever released above its maximum, every reference is one the dictionary
      or the semaphores know, and so a thread inside a call is only ever stopped by waiting
      for a permit. */
  lemma OnlyWaitingBlocks(run: seq<State>, k: nat, i: nat)
    requires Run(run) && k < |run| && i < |run[k].threads|
    ensures !run[k].threads[i].Overflowed?
    ensures WellReferenced(run[k], run[k].threads[i])
    ensures Enabled(run[k], i, Go) <==>
              var t := run[k].threads[i];
              !t.Idle? && (t.At? && t.point.Waiting? ==> run[k].entries[t.e].permits > 0 || run[k].entries[t.e].disposed)
  {
    ReachableInv(run, k);
    assert ThreadInv(run[k], run[k].threads[i]);
  }

  // ----- recently used entries survive the cleaner

  predicate NoFutureAccess(s: State) {
    forall e :: 0 <= e < |s.entries| ==> s.entries[e].lastAccess <= s.now
  }

  lemma {:induction false} AccessesArePast(run: seq<State>, m: nat)
    requires forall j :: 0 < j < |run| ==> EntriesStep(run[j - 1], run[j])
    requires m < |run| && run[0].entries == []
    ensures NoFutureAccess(run[m])
  {
    if m > 0 {
      AccessesArePast(run, m - 1);
      var s, s' := run[m - 1], run[m];
      forall e | 0 <= e < |s'.entries| ensures s'.entries[e].lastAccess <= s'.now {
        assert e < |s.entries| ==> EntryStep(s.now, s.entries[e], s'.entries[e]);
      }
    }
  }

  lemma {:induction false} AccessTimesGrow(run: seq<State>, k: nat, m: nat, e: EntryId)
    requires forall j :: 0 < j < |run| ==> EntriesStep(run[j - 1], run[j])
    requires k <= m < |run| && run[0].entries == [] && e < |run[k].entries|
    ensures e < |run[m].entries| && run[k].entries[e].lastAccess <= run[m].entries[e].lastAccess
  {
    if m > k {
      AccessTimesGrow(run, k, m - 1, e);
      AccessesArePast(run, m - 1);
      assert EntryStep(run[m - 1].now, run[m - 1].entries[e], run[m].entries[e]);
    }
  }

  /** A thread that asked for the lock, or released it, at step k protects the entry for 30
      minutes: a cleaner whose clock reading is not later than that keeps the entry. */
  lemma RecentUseProtects(run: seq<State>, k: nat, i: nat, m: nat, j: nat)
    requires Run(run) && k < m < |run| && i < |run[k].threads| && j < |run[m].threads|
    requires var t := run[k].threads[i];
             t.At? && t.point in {Fetched, Uncounted} && t.e < |run[k].entries| && run[k + 1] == Next(run[k], i, t)
    requires var c := run[m].threads[j];
             c.At? && c.point == Counted && c.e == run[k].threads[i].e && c.e < |run[m].entries|
             && c.readTime - run[k].now <= 30 * 60 * 10_000_000
    ensures Next(run[m], j, run[m].threads[j]).threads[j].point == Keeping
  {
    RunIsEntriesSteps(run);
    AccessTimesGrow(run, k + 1, m, run[k].threads[i].e);
  }
}
