/** Whether FetchSecret calls can go on: the two locks never block each other, but a panic blocks everything. */
module CacheProgress {
  import opened Wrappers
  import opened CacheProtocol
  import opened CacheTheorems

  ghost predicate SomePanicked(s: State) {
    exists t: Thread :: At(s, t).Panicked?
  }

  // ----- after a panic -----

  /** The call has got through p.mu. */
  predicate Through(p: Place) {
    p.Looking? || InRead(p) || p.Found?
  }

  lemma WedgedStep(s: State, step: Step, t: Thread, u: Thread)
    requires LocksAgree(s) && At(s, t).Panicked? && Enabled(s, step)
    ensures var s' := Apply(s, step);
            At(s', t).Panicked? && s'.syncs == s.syncs && (Through(At(s', u)) ==> Through(At(s, u)))
  {
    assert s.mu == Some(t);
    if !step.Tick? {
      var actor := step.t;
      assert InMu(At(s, actor)) ==> actor == t;
    }
  }

  /**
   * A call that panics while it decrypts leaves p.mu locked. If the panic is
   * recovered further up, the vault is never synced again and no call gets
   * through that was not through already.
   */
  lemma {:induction false} WedgedForever(s: State, steps: seq<Step>, t: Thread, u: Thread)
    requires Inv(s) && At(s, t).Panicked? && Legal(s, steps)
    ensures At(After(s, steps), t).Panicked?
    ensures After(s, steps).syncs == s.syncs
    ensures Through(At(After(s, steps), u)) ==> Through(At(s, u))
    decreases |steps|
  {
    if steps != [] {
      hide CacheProtocol.Apply, CacheProtocol.At;
      WedgedStep(s, steps[0], t, u);
      InvStep(s, steps[0]);
      WedgedForever(Apply(s, steps[0]), steps[1..], t, u);
    }
  }

  lemma OneThen(s: State, step: Step, rest: seq<Step>)
    requires Enabled(s, step) && Legal(Apply(s, step), rest)
    ensures Legal(s, [step] + rest) && After(s, [step] + rest) == After(Apply(s, step), rest)
  {
    assert ([step] + rest)[1..] == rest;
  }

  lemma {:induction false} StepsThen(s: State, steps: seq<Step>, rest: seq<Step>)
    requires Legal(s, steps) && Legal(After(s, steps), rest)
    ensures Legal(s, steps + rest) && After(s, steps + rest) == After(After(s, steps), rest)
    decreases |steps|
  {
    if steps == [] {
      assert [] + rest == rest;
    } else {
      StepsThen(Apply(s, steps[0]), steps[1..], rest);
      assert steps + rest == [steps[0]] + (steps[1..] + rest);
      OneThen(s, steps[0], steps[1..] + rest);
    }
  }

  /** A run that gets there: the first call logs in and then panics, for instance on an IV of the wrong length. */
  lemma PanickedRun(ttl: int, clock: nat) returns (steps: seq<Step>)
    ensures Legal(Init(ttl, clock), steps) && SomePanicked(After(Init(ttl, clock), steps))
  {
    var s0 := Init(ttl, clock);
    var s1 := Apply(s0, Call(0));
    var s2 := Apply(s1, Lock(0));
    var s3 := Apply(s2, CheckCache(0));
    var s4 := Apply(s3, Login(0, None));
    var s5 := Apply(s4, Crash(0));
    assert At(s5, 0).Panicked?;
    OneThen(s4, Crash(0), []);
    OneThen(s3, Login(0, None), [Crash(0)] + []);
    OneThen(s2, CheckCache(0), [Login(0, None)] + ([Crash(0)] + []));
    OneThen(s1, Lock(0), [CheckCache(0)] + ([Login(0, None)] + ([Crash(0)] + [])));
    OneThen(s0, Call(0), [Lock(0)] + ([CheckCache(0)] + ([Login(0, None)] + ([Crash(0)] + []))));
    steps := [Call(0)] + ([Lock(0)] + ([CheckCache(0)] + ([Login(0, None)] + ([Crash(0)] + []))));
  }

  // ----- without a panic -----

  /** No call has panicked so far. */
  ghost predicate Calm(s: State) {
    Inv(s) && !SomePanicked(s)
  }

  lemma CalmStep(s: State, step: Step)
    requires Calm(s) && Enabled(s, step) && !step.Crash?
    ensures Calm(Apply(s, step))
  {
    InvStep(s, step);
    forall t: Thread
      ensures !At(Apply(s, step), t).Panicked?
    {
      NoNewPanic(s, step, t);
    }
  }

  lemma NoNewPanic(s: State, step: Step, t: Thread)
    requires Enabled(s, step) && !step.Crash?
    ensures At(Apply(s, step), t).Panicked? ==> At(s, t).Panicked?
  {
  }

  /** What the holder of p.mu can do next on its shortest way to releasing it. */
  function ReleaseStep(p: Place, t: Thread): Step
    requires InMu(p) && !p.Panicked?
  {
    match p
    case Checking => CheckCache(t)
    case CheckingToken(_) => CheckToken(t)
    case Authenticating(_, _) => Fail(t)
    case LoggedIn(_, _) => Fail(t)
    case Publishing(_, _, written, _) => if written < 3 then Write(t) else UnlockCache(t)
    case Releasing(_) => Unlock(t)
  }

  /** A bound on the steps to the release. */
  function StepsToRelease(p: Place): nat {
    match p
    case Checking => 3
    case CheckingToken(_) => 2
    case Publishing(_, _, written, _) => if written < 3 then 5 - written else 2
    case _ => 1
  }

  lemma ReleaseStepWorks(s: State, t: Thread)
    requires Calm(s) && s.mu == Some(t)
    ensures InMu(At(s, t)) && !At(s, t).Panicked?
    ensures var step := ReleaseStep(At(s, t), t);
            && Enabled(s, step) && step.t == t
            && (Apply(s, step).mu == None
                || (Apply(s, step).mu == Some(t) && StepsToRelease(At(Apply(s, step), t)) < StepsToRelease(At(s, t))))
  {
    assert InMu(At(s, t)) && !At(s, t).Panicked?;
    assert s.writer.Some? ==> At(s, s.writer.value).Publishing? && s.mu == s.writer;
  }

  /** Whoever holds p.mu can release it, without anyone else having to move. */
  lemma {:induction false} Release(s: State) returns (steps: seq<Step>)
    requires Calm(s)
    ensures Legal(s, steps) && Calm(After(s, steps)) && After(s, steps).mu == None
    ensures forall u: Thread :: s.mu != Some(u) ==> At(After(s, steps), u) == At(s, u)
    decreases if s.mu == None then 0 else 1, if s.mu == None then 0 else StepsToRelease(At(s, s.mu.value))
  {
    if s.mu == None {
      steps := [];
    } else {
      hide CacheProtocol.Apply, CacheProtocol.At, Calm;
      var t := s.mu.value;
      ReleaseStepWorks(s, t);
      var step := ReleaseStep(At(s, t), t);
      CalmStep(s, step);
      forall u: Thread | u != t
        ensures At(Apply(s, step), u) == At(s, u)
      {
        StaysPut(s, step, u);
      }
      var rest := Release(Apply(s, step));
      OneThen(s, step, rest);
      steps := [step] + rest;
    }
  }

  /**
   * In every state that the calls can reach, p.mu can still be released if and
   * only if no call has panicked inside it.
   */
  lemma ReleasableIff(s: State)
    requires Inv(s)
    ensures (exists steps :: Legal(s, steps) && After(s, steps).mu == None) <==> !SomePanicked(s)
  {
    if t: Thread :| At(s, t).Panicked? {
      forall steps | Legal(s, steps)
        ensures After(s, steps).mu == Some(t)
      {
        WedgedForever(s, steps, t, t);
        InvAfter(s, steps);
      }
    } else {
      var steps := Release(s);
    }
  }

  // ----- a waiting call -----

  function ReadStep(p: Place, t: Thread): Step
    requires InRead(p)
  {
    match p
    case ReadingFolders(_) => ReadFolders(t)
    case ReadingItems(_, _) => ReadItems(t)
    case ReadAll(_, _, _) => RUnlock(t)
  }

  function StepsToRead(p: Place): nat {
    if p.ReadingFolders? then 3 else if p.ReadingItems? then 2 else if p.ReadAll? then 1 else 0
  }

  lemma ReadStepWorks(s: State, t: Thread)
    requires LocksAgree(s) && InRead(At(s, t))
    ensures var step, s' := ReadStep(At(s, t), t), Apply(s, ReadStep(At(s, t), t));
            && Enabled(s, step) && step.t == t && !step.Crash?
            && s'.mu == s.mu
            && (if InRead(At(s', t)) then s'.readers == s.readers && StepsToRead(At(s', t)) < StepsToRead(At(s, t))
                else s'.readers == s.readers - {t})
  {
  }

  /** Every reader can leave cache.mu, without anyone else having to move. */
  lemma {:induction false} ReadersLeave(s: State, t: Thread) returns (steps: seq<Step>)
    requires Calm(s) && t in s.readers
    ensures Legal(s, steps) && Calm(After(s, steps)) && After(s, steps).readers == s.readers - {t}
    ensures After(s, steps).mu == s.mu
    ensures forall u: Thread :: u != t ==> At(After(s, steps), u) == At(s, u)
    decreases StepsToRead(At(s, t))
  {
    assert LocksAgree(s) && InRead(At(s, t));
    hide CacheProtocol.Apply, CacheProtocol.At, CacheProtocol.InRead, Calm;
    ReadStepWorks(s, t);
    var step := ReadStep(At(s, t), t);
    var s1 := Apply(s, step);
    CalmStep(s, step);
    forall u: Thread | u != t
      ensures At(s1, u) == At(s, u)
    {
      StaysPut(s, step, u);
    }
    var rest := [];
    if InRead(At(s1, t)) {
      rest := ReadersLeave(s1, t);
    }
    OneThen(s, step, rest);
    steps := [step] + rest;
  }

  lemma {:induction false} AllReadersLeave(s: State) returns (steps: seq<Step>)
    requires Calm(s)
    ensures Legal(s, steps) && Calm(After(s, steps)) && After(s, steps).readers == {}
    ensures After(s, steps).mu == s.mu
    ensures forall u: Thread :: u !in s.readers ==> At(After(s, steps), u) == At(s, u)
    decreases s.readers
  {
    if s.readers == {} {
      steps := [];
    } else {
      hide Calm;
      var t :| t in s.readers;
      var first := ReadersLeave(s, t);
      var rest := AllReadersLeave(After(s, first));
      StepsThen(s, first, rest);
      steps := first + rest;
    }
  }

  /** On its way from p.mu to its answer, when no one else is in the locks. */
  ghost predicate Alone(s: State, t: Thread) {
    Calm(s) && (s.mu == None || s.mu == Some(t)) && s.readers <= {t}
  }

  function OwnStep(p: Place, t: Thread): Step
    requires p.Started? || InMu(p) || Through(p)
    requires !p.Panicked? && !p.Found?
  {
    match p
    case Started => Lock(t)
    case Checking => CheckCache(t)
    case CheckingToken(_) => CheckToken(t)
    case Authenticating(_, _) => Login(t, None)
    case LoggedIn(_, _) => LockCache(t, EMPTY_VAULT)
    case Publishing(_, _, written, _) => if written < 3 then Write(t) else UnlockCache(t)
    case Releasing(_) => Unlock(t)
    case Looking(_) => RLock(t)
    case ReadingFolders(_) => ReadFolders(t)
    case ReadingItems(_, _) => ReadItems(t)
    case ReadAll(_, _, _) => RUnlock(t)
  }

  function StepsToAnswer(p: Place): nat {
    match p
    case Started => 14
    case Checking => 13
    case CheckingToken(_) => 12
    case Authenticating(_, _) => 11
    case LoggedIn(_, _) => 10
    case Publishing(_, _, written, _) => if written < 3 then 9 - written else 6
    case Releasing(_) => 5
    case Looking(_) => 4
    case _ => StepsToRead(p)
  }

  predicate OnItsWay(p: Place) {
    (p.Started? || InMu(p) || Through(p)) && !p.Panicked?
  }

  lemma OwnStepEnabled(s: State, t: Thread)
    requires Alone(s, t) && OnItsWay(At(s, t)) && !At(s, t).Found?
    ensures var step := OwnStep(At(s, t), t);
            Enabled(s, step) && !step.Crash? && !step.Tick? && step.t == t
  {
    assert s.writer.Some? ==> At(s, s.writer.value).Publishing? && s.mu == s.writer;
    assert InMu(At(s, t)) <==> s.mu == Some(t);
    assert InRead(At(s, t)) <==> t in s.readers;
    assert s.readers == {} || s.readers == {t};
  }

  lemma OwnStepEffect(s: State, t: Thread)
    requires OnItsWay(At(s, t)) && !At(s, t).Found? && Enabled(s, OwnStep(At(s, t), t))
    requires (s.mu == None || s.mu == Some(t)) && s.readers <= {t}
    ensures var s' := Apply(s, OwnStep(At(s, t), t));
            && OnItsWay(At(s', t))
            && StepsToAnswer(At(s', t)) < StepsToAnswer(At(s, t))
            && (s'.mu == None || s'.mu == Some(t))
            && s'.readers <= {t}
  {
  }

  lemma {:induction false} Answer(s: State, t: Thread) returns (steps: seq<Step>)
    requires Alone(s, t) && OnItsWay(At(s, t))
    ensures Legal(s, steps) && At(After(s, steps), t).Found?
    decreases StepsToAnswer(At(s, t))
  {
    if At(s, t).Found? {
      steps := [];
    } else {
      OwnStepEnabled(s, t);
      OwnStepEffect(s, t);
      hide CacheProtocol.Apply, CacheProtocol.At, Calm;
      var step := OwnStep(At(s, t), t);
      CalmStep(s, step);
      var rest := Answer(Apply(s, step), t);
      OneThen(s, step, rest);
      steps := [step] + rest;
    }
  }

  /**
   * No deadlock: a call that waits for p.mu can still get its answer, whatever
   * the other calls are in the middle of, if and only if none has panicked.
   */
  lemma CallAnsweredIff(s: State, t: Thread)
    requires Inv(s) && At(s, t).Started?
    ensures (exists steps :: Legal(s, steps) && At(After(s, steps), t).Found?) <==> !SomePanicked(s)
  {
    if u: Thread :| At(s, u).Panicked? {
      forall steps | Legal(s, steps)
        ensures !At(After(s, steps), t).Found?
      {
        WedgedForever(s, steps, u, t);
      }
    } else {
      assert s.mu != Some(t) && t !in s.readers;
      var a := Release(s);
      var s1 := After(s, a);
      assert t !in s1.readers;
      var b := AllReadersLeave(s1);
      var c := Answer(After(s1, b), t);
      StepsThen(s1, b, c);
      StepsThen(s, a, b + c);
      assert Legal(s, a + (b + c)) && At(After(s, a + (b + c)), t).Found?;
    }
  }

  // ----- a login without a token -----

  /** Nobody is in a lock and there is no token. */
  ghost predicate Tokenless(s: State) {
    s.mu == None && s.writer == None && s.readers == {} && s.token == None
  }

  /** Writing the fields and leaving both locks. */
  lemma WriteTokenless(s: State, t: Thread, at: int, why: Cause, v: Vault) returns (steps: seq<Step>)
    requires At(s, t) == Publishing(at, why, 0, v) && s.mu == Some(t) && s.readers == {} && s.token == None
    ensures Legal(s, steps) && Tokenless(After(s, steps))
    ensures var s' := After(s, steps);
            && s'.syncs == s.syncs + [Sync(at, s.clock, why, v)]
            && s'.clock == s.clock && s'.ttl == s.ttl && s'.expiry == s.clock + s.ttl
            && s'.threads.Keys == s.threads.Keys
  {
    var s1 := Apply(s, Write(t));
    var s2 := Apply(s1, Write(t));
    var s3 := Apply(s2, Write(t));
    var s4 := Apply(s3, UnlockCache(t));
    var s5 := Apply(s4, Unlock(t));
    assert s5.syncs == s.syncs + [Sync(at, s.clock, why, v)] && s5.threads.Keys == s.threads.Keys;
    assert Enabled(s1, Write(t)) && Enabled(s2, Write(t)) && Enabled(s3, UnlockCache(t)) && Enabled(s4, Unlock(t));
    hide CacheProtocol.Apply, CacheProtocol.Enabled;
    var unlocks := [UnlockCache(t)] + ([Unlock(t)] + []);
    OneThen(s4, Unlock(t), []);
    OneThen(s3, UnlockCache(t), [Unlock(t)] + []);
    OneThen(s2, Write(t), unlocks);
    OneThen(s1, Write(t), [Write(t)] + unlocks);
    OneThen(s, Write(t), [Write(t)] + ([Write(t)] + unlocks));
    steps := [Write(t)] + ([Write(t)] + ([Write(t)] + unlocks));
  }

  /** From the decision to authenticate to the publication, when the login brings no token. */
  lemma PublishTokenless(s: State, t: Thread, at: int, why: Cause, v: Vault) returns (steps: seq<Step>)
    requires At(s, t) == Authenticating(at, why) && s.mu == Some(t) && s.writer == None && s.readers == {}
    ensures Legal(s, steps) && Tokenless(After(s, steps))
    ensures var s' := After(s, steps);
            && s'.syncs == s.syncs + [Sync(at, s.clock, why, v)]
            && s'.clock == s.clock && s'.ttl == s.ttl && s'.expiry == s.clock + s.ttl
            && s'.threads.Keys == s.threads.Keys
  {
    var s1 := Apply(s, Login(t, None));
    var s2 := Apply(s1, LockCache(t, v));
    assert s2.threads.Keys == s.threads.Keys;
    var rest := WriteTokenless(s2, t, at, why, v);
    OneThen(s1, LockCache(t, v), rest);
    OneThen(s, Login(t, None), [LockCache(t, v)] + rest);
    steps := [Login(t, None)] + ([LockCache(t, v)] + rest);
  }

  /** A new call syncs at once: for an expired cache, or although the cache is valid. */
  lemma SyncTokenless(s: State, t: Thread, v: Vault) returns (steps: seq<Step>)
    requires Tokenless(s) && t !in s.threads
    ensures Legal(s, steps) && Tokenless(After(s, steps))
    ensures var s' := After(s, steps);
            var why := if s.clock < s.expiry then TokenDead(s.clock, None) else CacheExpired;
            && s'.syncs == s.syncs + [Sync(s.clock, s.clock, why, v)]
            && s'.clock == s.clock && s'.ttl == s.ttl && s'.expiry == s.clock + s.ttl
            && s'.threads.Keys == s.threads.Keys + {t}
  {
    var s1 := Apply(s, Call(t));
    var s2 := Apply(s1, Lock(t));
    var s3 := Apply(s2, CheckCache(t));
    var checks := [CheckCache(t)];
    var s4 := s3;
    if s.clock < s.expiry {
      s4 := Apply(s3, CheckToken(t));
      OneThen(s3, CheckToken(t), []);
      OneThen(s2, CheckCache(t), [CheckToken(t)] + []);
      checks := [CheckCache(t)] + ([CheckToken(t)] + []);
    } else {
      OneThen(s2, CheckCache(t), []);
      assert checks == [CheckCache(t)] + [];
    }
    assert After(s2, checks) == s4 && s4.threads.Keys == s.threads.Keys + {t};
    var rest := PublishTokenless(s4, t, s.clock, At(s4, t).why, v);
    hide CacheProtocol.Apply;
    StepsThen(s2, checks, rest);
    OneThen(s1, Lock(t), checks + rest);
    OneThen(s, Call(t), [Lock(t)] + (checks + rest));
    steps := [Call(t)] + ([Lock(t)] + (checks + rest));
  }

  /**
   * A login whose reply carries no token is accepted, so the next call syncs
   * again at once although the cache has just been filled.
   */
  lemma TokenlessSyncsTwice(ttl: int, clock: nat, v: Vault) returns (steps: seq<Step>)
    requires ttl > 0
    ensures Legal(Init(ttl, clock), steps)
    ensures After(Init(ttl, clock), steps).syncs
         == [Sync(clock, clock, CacheExpired, v), Sync(clock, clock, TokenDead(clock, None), v)]
  {
    var s := Init(ttl, clock);
    var first := SyncTokenless(s, 0, v);
    var second := SyncTokenless(After(s, first), 1, v);
    StepsThen(s, first, second);
    steps := first + second;
  }
}
