/** What concurrent FetchSecret calls can read. */
module CacheTheorems {
  import opened Wrappers
  import opened CacheProtocol

  lemma MuStep(s: State, step: Step)
    requires LocksAgree(s) && Enabled(s, step)
    ensures var s' := Apply(s, step);
            forall t: Thread :: s'.mu == Some(t) <==> InMu(At(s', t))
  {
  }

  lemma WriterStep(s: State, step: Step)
    requires LocksAgree(s) && Enabled(s, step)
    ensures var s' := Apply(s, step);
            && (forall t: Thread :: s'.writer == Some(t) <==> At(s', t).Publishing?)
            && (s'.writer.Some? ==> s'.readers == {})
  {
  }

  lemma ReadersStep(s: State, step: Step)
    requires LocksAgree(s) && Enabled(s, step)
    ensures var s' := Apply(s, step);
            forall t: Thread :: t in s'.readers <==> InRead(At(s', t))
  {
  }

  lemma LocksStep(s: State, step: Step)
    requires LocksAgree(s) && Enabled(s, step)
    ensures LocksAgree(Apply(s, step))
  {
    hide CacheProtocol.Apply, CacheProtocol.Enabled;
    MuStep(s, step);
    WriterStep(s, step);
    ReadersStep(s, step);
  }

  lemma CacheStep(s: State, step: Step)
    requires LocksAgree(s) && CacheAgrees(s) && Enabled(s, step)
    ensures CacheAgrees(Apply(s, step))
  {
  }

  lemma QuietSyncs(s: State, step: Step)
    requires Enabled(s, step) && !step.Write?
    ensures var s' := Apply(s, step);
            s'.syncs == s.syncs && s'.ttl == s.ttl && s'.clock >= s.clock
  {
  }

  lemma TurnAfterWrite(s: State, w: Thread)
    requires SyncsInTurn(s) && Enabled(s, Write(w)) && Knows(s, At(s, w))
    ensures SyncsInTurn(Apply(s, Write(w)))
  {
  }

  lemma TurnStep(s: State, step: Step)
    requires SyncsInTurn(s) && Enabled(s, step)
    requires forall t: Thread :: Knows(s, At(s, t))
    ensures SyncsInTurn(Apply(s, step))
  {
    hide CacheProtocol.Apply, CacheProtocol.Enabled, CacheProtocol.Knows;
    if step.Write? {
      TurnAfterWrite(s, step.t);
    } else {
      QuietSyncs(s, step);
    }
  }

  /** The step is not taken by t. */
  predicate ByAnother(step: Step, t: Thread) {
    step.Tick? || step.t != t
  }

  /** Without a new sync, what a waiting call knows stays true as time passes. */
  lemma KnowsLater(s: State, s': State, p: Place)
    requires Knows(s, p) && s'.syncs == s.syncs && s'.ttl == s.ttl && s'.clock >= s.clock
    ensures Knows(s', p)
  {
  }

  lemma StaysPut(s: State, step: Step, t: Thread)
    requires Enabled(s, step) && ByAnother(step, t)
    ensures At(Apply(s, step), t) == At(s, t)
  {
  }

  /** A new sync is at least as recent as the last one. */
  lemma KnowsAfterWrite(s: State, w: Thread, t: Thread)
    requires LocksAgree(s) && SyncsInTurn(s) && Enabled(s, Write(w)) && t != w && Knows(s, At(s, t))
    ensures Knows(Apply(s, Write(w)), At(s, t)) && At(Apply(s, Write(w)), t) == At(s, t)
  {
    OnlyPublisher(s, w, t);
    var s' := Apply(s, Write(w));
    assert s'.syncs == s.syncs || (s'.syncs[..|s.syncs|] == s.syncs && s'.syncs[|s.syncs|].endedAt == s.clock);
  }

  lemma KnowsOwnWrite(s: State, w: Thread)
    requires s.ttl > 0 && Enabled(s, Write(w)) && Knows(s, At(s, w))
    ensures Knows(Apply(s, Write(w)), At(Apply(s, Write(w)), w))
  {
  }

  /** The two checks and the login. */
  lemma KnowsAfterCheck(s: State, step: Step)
    requires CacheAgrees(s) && SyncsInTurn(s) && Enabled(s, step) && !step.Tick? && Knows(s, At(s, step.t))
    requires step.CheckCache? || step.CheckToken? || step.Login? || step.LockCache? || step.UnlockCache?
    ensures Knows(Apply(s, step), At(Apply(s, step), step.t))
  {
  }

  /** The steps of a reader see the fields of the last sync. */
  lemma KnowsAfterRead(s: State, step: Step)
    requires LocksAgree(s) && CacheAgrees(s) && Enabled(s, step) && !step.Tick? && Knows(s, At(s, step.t))
    requires step.RLock? || step.ReadFolders? || step.ReadItems? || step.RUnlock?
    ensures Knows(Apply(s, step), At(Apply(s, step), step.t))
  {
    assert InRead(At(s, step.t)) ==> step.t in s.readers;
    assert InRead(At(s, step.t)) ==> s.writer.None?;
  }

  lemma KnowsStep(s: State, step: Step, t: Thread)
    requires Inv(s) && Enabled(s, step)
    ensures Knows(Apply(s, step), At(Apply(s, step), t))
  {
    if step.Write? {
      if step.t == t {
        KnowsOwnWrite(s, t);
      } else {
        KnowsAfterWrite(s, step.t, t);
      }
    } else if ByAnother(step, t) {
      hide CacheProtocol.Apply, CacheProtocol.Knows, CacheProtocol.At;
      StaysPut(s, step, t);
      QuietSyncs(s, step);
      KnowsLater(s, Apply(s, step), At(s, t));
    } else if step.RLock? || step.ReadFolders? || step.ReadItems? || step.RUnlock? {
      KnowsAfterRead(s, step);
    } else if step.CheckCache? || step.CheckToken? || step.Login? || step.LockCache? || step.UnlockCache? {
      KnowsAfterCheck(s, step);
    } else {
      KnowsMoving(s, step);
    }
  }

  lemma KnowsMoving(s: State, step: Step)
    requires Enabled(s, step) && (step.Call? || step.Lock? || step.Fail? || step.Crash? || step.Unlock?) && Knows(s, At(s, step.t))
    ensures Knows(Apply(s, step), At(Apply(s, step), step.t))
  {
  }

  /** While a call publishes, no other one is inside p.mu or reads the cache. */
  lemma OnlyPublisher(s: State, w: Thread, t: Thread)
    requires LocksAgree(s) && At(s, w).Publishing?
    ensures t != w ==> !InMu(At(s, t)) && !InRead(At(s, t))
  {
    assert s.mu == Some(w) && s.writer == Some(w);
    assert InMu(At(s, t)) ==> s.mu == Some(t);
    assert InRead(At(s, t)) ==> t in s.readers;
  }

  lemma InvStep(s: State, step: Step)
    requires Inv(s) && Enabled(s, step)
    ensures Inv(Apply(s, step))
  {
    LocksStep(s, step);
    CacheStep(s, step);
    TurnStep(s, step);
    forall t: Thread {
      KnowsStep(s, step, t);
    }
  }

  lemma {:induction false} InvAfter(s: State, steps: seq<Step>)
    requires Inv(s) && Legal(s, steps)
    ensures Inv(After(s, steps))
    decreases |steps|
  {
    if steps != [] {
      InvStep(s, steps[0]);
      InvAfter(Apply(s, steps[0]), steps[1..]);
    }
  }

  lemma InitInv(ttl: int, clock: nat)
    requires ttl > 0
    ensures Inv(Init(ttl, clock))
  {
  }

  lemma ReachableInv(ttl: int, clock: nat, steps: seq<Step>)
    requires ttl > 0 && Legal(Init(ttl, clock), steps)
    ensures Inv(After(Init(ttl, clock), steps))
  {
    InitInv(ttl, clock);
    InvAfter(Init(ttl, clock), steps);
  }

  lemma {:induction false} TtlAfter(s: State, steps: seq<Step>)
    requires Legal(s, steps)
    ensures After(s, steps).ttl == s.ttl
    decreases |steps|
  {
    if steps != [] {
      TtlAfter(Apply(s, steps[0]), steps[1..]);
    }
  }

  /**
   * Whatever the interleaving, a call that got through FindItem read folders and
   * items of one and the same completed sync, which was published less than the
   * TTL before the call's validity check, or after it.
   */
  lemma SnapshotConsistency(ttl: int, clock: nat, steps: seq<Step>, t: Thread)
    requires ttl > 0 && Legal(Init(ttl, clock), steps)
    requires At(After(Init(ttl, clock), steps), t).Found?
    ensures var s := After(Init(ttl, clock), steps);
            var p := At(s, t);
            && p.folders == p.items
            && 1 <= p.folders <= |s.syncs|
            && s.syncs[p.folders - 1].endedAt > p.at - ttl
  {
    ReachableInv(ttl, clock, steps);
    TtlAfter(Init(ttl, clock), steps);
    assert Knows(After(Init(ttl, clock), steps), At(After(Init(ttl, clock), steps), t));
  }

  /**
   * Syncs never overlap, and none is redundant: each was decided on after the
   * one before was published, and then only because that one's TTL had passed,
   * the last login had brought no token, or the token it brought had expired.
   */
  lemma SyncsAreSerial(ttl: int, clock: nat, steps: seq<Step>, i: nat)
    requires ttl > 0 && Legal(Init(ttl, clock), steps) && i + 1 < |After(Init(ttl, clock), steps).syncs|
    ensures var syncs := After(Init(ttl, clock), steps).syncs;
            && syncs[i].checkedAt <= syncs[i].endedAt <= syncs[i + 1].checkedAt
            && match syncs[i + 1].why
               case CacheExpired => syncs[i].endedAt + ttl <= syncs[i + 1].checkedAt
               case TokenDead(at, expiry) =>
                 syncs[i + 1].checkedAt <= at <= syncs[i + 1].endedAt && (expiry.Some? ==> expiry.value <= at)
  {
    ReachableInv(ttl, clock, steps);
    TtlAfter(Init(ttl, clock), steps);
    assert Needed(After(Init(ttl, clock), steps).syncs[i], After(Init(ttl, clock), steps).syncs[i + 1], ttl);
  }

  /** At most one call is between p.mu.Lock and Unlock, and none reads while one publishes. */
  lemma LocksExclude(ttl: int, clock: nat, steps: seq<Step>, t: Thread, u: Thread)
    requires ttl > 0 && Legal(Init(ttl, clock), steps) && t != u
    ensures var s := After(Init(ttl, clock), steps);
            && !(InMu(At(s, t)) && InMu(At(s, u)))
            && !(At(s, t).Publishing? && InRead(At(s, u)))
  {
    ReachableInv(ttl, clock, steps);
    var s := After(Init(ttl, clock), steps);
    assert InMu(At(s, t)) ==> s.mu == Some(t);
    assert InMu(At(s, u)) ==> s.mu == Some(u);
    if At(s, t).Publishing? {
      OnlyPublisher(s, t, u);
    }
  }
}
