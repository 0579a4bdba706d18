/**
 * Concurrent FetchSecret calls: p.mu around check-then-authenticate, and the
 * read-write lock cache.mu around every access to the three cache fields. Each
 * lock operation and each field access is a step of its own.
 */
module CacheProtocol {
  import opened Wrappers
  import BitwardenClients

  type Thread = nat

  type Vault = BitwardenClients.Vault

  const EMPTY_VAULT := BitwardenClients.Vault(map[], [])

  /** Why a call authenticates: the cache had expired, or at a later check there was no token or a dead one. */
  datatype Cause = CacheExpired | TokenDead(at: int, expiry: Option<int>)

  /** A finished sync: when its validity check ran, when it was published, why it was made, and what it decrypted. */
  datatype Sync = Sync(checkedAt: int, endedAt: int, why: Cause, vault: Vault)

  /** Where a FetchSecret call is; `at` is when it asked whether the cache is valid. */
  datatype Place =
    | Started
    | Checking                                      // holds p.mu
    | CheckingToken(at: int)                        // holds p.mu; the cache was valid
    | Authenticating(at: int, why: Cause)   // holds p.mu
    | LoggedIn(at: int, why: Cause)         // holds p.mu; the vault is being requested and decrypted
    | Publishing(at: int, why: Cause, written: nat, vault: Vault) // holds p.mu and cache.mu; fields written so far
    | Releasing(at: int)                            // holds p.mu
    | Failed
    | Panicked                                      // still holds p.mu, which no defer unlocks
    | Looking(at: int)                              // about to enter FindItem
    | ReadingFolders(at: int)                       // holds cache.mu for reading
    | ReadingItems(at: int, folders: nat)           // holds cache.mu for reading
    | ReadAll(at: int, folders: nat, items: nat)    // holds cache.mu for reading
    | Found(at: int, folders: nat, items: nat)

  /** folders and items are named by the number of the sync they come from, 0 for none. */
  datatype State = State(
    ttl: int,
    clock: int,
    folders: nat,
    items: nat,
    expiry: int,
    token: Option<int>,          // expiry of the access token, None while accessToken is empty
    mu: Option<Thread>,          // holder of p.mu
    writer: Option<Thread>,      // cache.mu
    readers: set<Thread>,
    threads: map<Thread, Place>,
    syncs: seq<Sync>             // history
  )

  function Init(ttl: int, clock: nat): State {
    State(ttl, clock, 0, 0, 0, None, None, None, {}, map[], [])
  }

  datatype Step =
    | Tick(duration: nat)
    | Call(t: Thread)
    | Lock(t: Thread)
    | CheckCache(t: Thread)
    | CheckToken(t: Thread)
    | Login(t: Thread, token: Option<int>)
    | Fail(t: Thread)
    | Crash(t: Thread)
    | LockCache(t: Thread, vault: Vault)
    | Write(t: Thread)
    | UnlockCache(t: Thread)
    | Unlock(t: Thread)
    | RLock(t: Thread)
    | ReadFolders(t: Thread)
    | ReadItems(t: Thread)
    | RUnlock(t: Thread)

  function At(s: State, t: Thread): Place {
    if t in s.threads then s.threads[t] else Failed
  }

  predicate Enabled(s: State, step: Step) {
    match step
    case Tick(_) => true
    case Call(t) => t !in s.threads
    case Lock(t) => At(s, t).Started? && s.mu.None?
    case CheckCache(t) => At(s, t).Checking? && s.writer.None?
    case CheckToken(t) => At(s, t).CheckingToken?
    case Login(t, _) => At(s, t).Authenticating?
    case Fail(t) => At(s, t).Authenticating? || At(s, t).LoggedIn?
    case Crash(t) => At(s, t).LoggedIn?
    case LockCache(t, _) => At(s, t).LoggedIn? && s.writer.None? && s.readers == {}
    case Write(t) => At(s, t).Publishing? && At(s, t).written < 3
    case UnlockCache(t) => At(s, t).Publishing? && At(s, t).written == 3
    case Unlock(t) => At(s, t).Releasing?
    case RLock(t) => At(s, t).Looking? && s.writer.None?
    case ReadFolders(t) => At(s, t).ReadingFolders?
    case ReadItems(t) => At(s, t).ReadingItems?
    case RUnlock(t) => At(s, t).ReadAll?
  }

  function Go(s: State, t: Thread, p: Place): State {
    s.(threads := s.threads[t := p])
  }

  /** The assignments of the publishing lock section, in the order of the source. */
  function WriteNext(s: State, p: Place): State
    requires p.Publishing?
  {
    if p.written == 0 then s.(folders := |s.syncs| + 1)
    else if p.written == 1 then s.(items := |s.syncs| + 1)
    else s.(expiry := s.clock + s.ttl, syncs := s.syncs + [Sync(p.at, s.clock, p.why, p.vault)])
  }

  function Apply(s: State, step: Step): State
    requires Enabled(s, step)
  {
    match step
    case Tick(d) => s.(clock := s.clock + d)
    case Call(t) => Go(s, t, Started)
    case Lock(t) => Go(s, t, Checking).(mu := Some(t))
    case CheckCache(t) => Go(s, t, if s.clock < s.expiry then CheckingToken(s.clock) else Authenticating(s.clock, CacheExpired))
    case CheckToken(t) =>
      var at := At(s, t).at;
      Go(s, t, if s.token.Some? && s.clock < s.token.value then Releasing(at) else Authenticating(at, TokenDead(s.clock, s.token)))
    case Login(t, token) => Go(s, t, LoggedIn(At(s, t).at, At(s, t).why)).(token := token)
    case Fail(t) => Go(s, t, Failed).(mu := None)
    case Crash(t) => Go(s, t, Panicked)
    case LockCache(t, v) => Go(s, t, Publishing(At(s, t).at, At(s, t).why, 0, v)).(writer := Some(t))
    case Write(t) =>
      var p := At(s, t);
      Go(WriteNext(s, p), t, p.(written := p.written + 1))
    case UnlockCache(t) => Go(s, t, Releasing(At(s, t).at)).(writer := None)
    case Unlock(t) => Go(s, t, Looking(At(s, t).at)).(mu := None)
    case RLock(t) => Go(s, t, ReadingFolders(At(s, t).at)).(readers := s.readers + {t})
    case ReadFolders(t) => Go(s, t, ReadingItems(At(s, t).at, s.folders))
    case ReadItems(t) => Go(s, t, ReadAll(At(s, t).at, At(s, t).folders, s.items))
    case RUnlock(t) => Go(s, t, Found(At(s, t).at, At(s, t).folders, At(s, t).items)).(readers := s.readers - {t})
  }

  predicate Legal(s: State, steps: seq<Step>)
    decreases |steps|
  {
    steps == [] || (Enabled(s, steps[0]) && Legal(Apply(s, steps[0]), steps[1..]))
  }

  function After(s: State, steps: seq<Step>): State
    requires Legal(s, steps)
    decreases |steps|
  {
    if steps == [] then s else After(Apply(s, steps[0]), steps[1..])
  }

  // ----- the invariant -----

  predicate InMu(p: Place) {
    p.Checking? || p.CheckingToken? || p.Authenticating? || p.LoggedIn? || p.Publishing? || p.Releasing? || p.Panicked?
  }

  predicate InRead(p: Place) {
    p.ReadingFolders? || p.ReadingItems? || p.ReadAll?
  }

  /** The locks are held by exactly the calls that are inside them. */
  ghost predicate LocksAgree(s: State) {
    && (forall t: Thread :: s.mu == Some(t) <==> InMu(At(s, t)))
    && (forall t: Thread :: s.writer == Some(t) <==> At(s, t).Publishing?)
    && (forall t: Thread :: t in s.readers <==> InRead(At(s, t)))
    && (s.writer.Some? ==> s.readers == {})
  }

  /** The vault of the n-th sync: a finished one, or the one being published. */
  function VaultAt(s: State, n: nat): Vault {
    if 1 <= n <= |s.syncs| then s.syncs[n - 1].vault
    else if n > |s.syncs| && s.writer.Some? && At(s, s.writer.value).Publishing? then At(s, s.writer.value).vault
    else EMPTY_VAULT
  }

  function Written(s: State): nat {
    if s.writer.Some? && At(s, s.writer.value).Publishing? then At(s, s.writer.value).written else 3
  }

  /** Outside the publishing section folders and items are those of the last sync, and expiry is its. */
  ghost predicate CacheAgrees(s: State) {
    var n := |s.syncs|;
    && s.folders == (if Written(s) in {1, 2} then n + 1 else n)
    && s.items == (if Written(s) == 2 then n + 1 else n)
    && Written(s) <= 3
    && s.expiry == (if n == 0 then 0 else s.syncs[n - 1].endedAt + s.ttl)
  }

  function LastEnd(s: State): int {
    if s.syncs == [] then 0 else s.syncs[|s.syncs| - 1].endedAt
  }

  /** What made the later of two successive syncs necessary was really the case. */
  ghost predicate Needed(earlier: Sync, later: Sync, ttl: int) {
    match later.why
    case CacheExpired => earlier.endedAt + ttl <= later.checkedAt
    case TokenDead(at, expiry) => later.checkedAt <= at <= later.endedAt && (expiry.Some? ==> expiry.value <= at)
  }

  /** Syncs follow one another: each was decided on after the one before was published. */
  ghost predicate SyncsInTurn(s: State) {
    && 0 <= s.clock && LastEnd(s) <= s.clock
    && (forall i :: 0 <= i < |s.syncs| ==> 0 <= s.syncs[i].checkedAt <= s.syncs[i].endedAt)
    && (forall i :: 0 <= i < |s.syncs| - 1 ==>
          && s.syncs[i].endedAt <= s.syncs[i + 1].checkedAt
          && Needed(s.syncs[i], s.syncs[i + 1], s.ttl))
  }

  /** The n-th sync is recent enough for a check at the given time. */
  ghost predicate Fresh(s: State, n: nat, at: int) {
    1 <= n <= |s.syncs| && s.syncs[n - 1].endedAt > at - s.ttl
  }

  /** What a call at a place knows. */
  ghost predicate Knows(s: State, p: Place) {
    var n := |s.syncs|;
    match p
    case CheckingToken(at) => LastEnd(s) <= at <= s.clock && Fresh(s, n, at)
    case Authenticating(at, why) => DueAt(s, at, why)
    case LoggedIn(at, why) => DueAt(s, at, why)
    case Publishing(at, why, written, _) =>
      if written < 3 then DueAt(s, at, why) else at <= s.clock && Fresh(s, n, at)
    case Releasing(at) => Fresh(s, n, at)
    case Looking(at) => Fresh(s, n, at)
    case ReadingFolders(at) => Fresh(s, n, at)
    case ReadingItems(at, folders) => folders == n && Fresh(s, n, at)
    case ReadAll(at, folders, items) => folders == items == n && Fresh(s, n, at)
    case Found(at, folders, items) => folders == items && Fresh(s, folders, at)
    case _ => true
  }

  /** No sync has been published since the check, and the cause of the next one holds. */
  ghost predicate DueAt(s: State, at: int, why: Cause) {
    && 0 <= at && LastEnd(s) <= at <= s.clock
    && match why
       case CacheExpired => s.syncs != [] ==> LastEnd(s) + s.ttl <= at
       case TokenDead(checked, expiry) =>
         && at <= checked <= s.clock
         && (expiry.Some? ==> expiry.value <= checked)
  }

  ghost predicate Inv(s: State) {
    && s.ttl > 0
    && LocksAgree(s)
    && CacheAgrees(s)
    && SyncsInTurn(s)
    && forall t: Thread :: Knows(s, At(s, t))
  }
}
