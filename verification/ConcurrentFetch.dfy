/**
 * What concurrent FetchSecret calls answer: the lock protocol joined with what
 * syncs decrypt and with the lookup.
 */
module ConcurrentFetches {
  import opened Wrappers
  import opened GoMaps
  import opened Base64
  import opened Ciphers
  import opened CipherStrings
  import opened VaultItems
  import opened VaultDecryption
  import BitwardenClients
  import BitwardenProviders
  import BitwardenRefs
  import opened CacheProtocol
  import opened CacheTheorems

  // ----- every vault in the cache was published by some sync of the run -----

  /** Every publishing call of the run publishes a vault with the property. */
  ghost predicate PublishesOnly(steps: seq<Step>, good: Vault -> bool) {
    forall i :: 0 <= i < |steps| && steps[i].LockCache? ==> good(steps[i].vault)
  }

  ghost predicate HoldsOnly(s: State, good: Vault -> bool) {
    && (forall i :: 0 <= i < |s.syncs| ==> good(s.syncs[i].vault))
    && (forall t: Thread :: At(s, t).Publishing? ==> good(At(s, t).vault))
  }

  lemma HoldsOnlyStep(s: State, step: Step, good: Vault -> bool)
    requires HoldsOnly(s, good) && Enabled(s, step) && (step.LockCache? ==> good(step.vault))
    ensures HoldsOnly(Apply(s, step), good)
  {
    SyncsFrom(s, step);
    forall t: Thread | At(Apply(s, step), t).Publishing?
      ensures good(At(Apply(s, step), t).vault)
    {
      PublishingFrom(s, step, t);
    }
    hide CacheProtocol.Apply, CacheProtocol.At;
  }

  /** A vault being published is the one that the call brought. */
  lemma PublishingFrom(s: State, step: Step, t: Thread)
    requires Enabled(s, step) && At(Apply(s, step), t).Publishing?
    ensures || (At(s, t).Publishing? && At(Apply(s, step), t).vault == At(s, t).vault)
            || (step.LockCache? && At(Apply(s, step), t).vault == step.vault)
  {
  }

  /** A new sync is that of the call that writes. */
  lemma SyncsFrom(s: State, step: Step)
    requires Enabled(s, step)
    ensures var s' := Apply(s, step);
            || s'.syncs == s.syncs
            || (step.Write? && At(s, step.t).Publishing?
                && |s'.syncs| == |s.syncs| + 1 && s'.syncs[..|s.syncs|] == s.syncs
                && s'.syncs[|s.syncs|].vault == At(s, step.t).vault)
  {
  }

  lemma {:induction false} HoldsOnlyAfter(s: State, steps: seq<Step>, good: Vault -> bool)
    requires HoldsOnly(s, good) && Legal(s, steps) && PublishesOnly(steps, good)
    ensures HoldsOnly(After(s, steps), good)
    decreases |steps|
  {
    if steps != [] {
      hide CacheProtocol.Apply, CacheProtocol.Enabled, HoldsOnly;
      HoldsOnlyStep(s, steps[0], good);
      HoldsOnlyAfter(Apply(s, steps[0]), steps[1..], good);
    }
  }

  // ----- the answers -----

  /** What a call that has left FindItem answers, from the folders and the items it has read. */
  function Answer(s: State, p: Place, order: seq<string>, ref: BitwardenRefs.BitwardenReference)
    : Result<BitwardenProviders.Secret, BitwardenProviders.FetchError>
    requires p.Found?
  {
    var seen := BitwardenClients.Vault(VaultAt(s, p.folders).folders, VaultAt(s, p.items).items);
    BitwardenProviders.FetchFromVault(seen, order, ref)
  }

  /**
   * Over all interleavings, a call that gets through answers the lookup in one
   * vault that a sync of the run decrypted as a whole, published less than the
   * TTL before the call's validity check or after it.
   */
  lemma AnswersFromOneVault(ttl: int, clock: nat, steps: seq<Step>, t: Thread, good: Vault -> bool,
                            order: seq<string>, ref: BitwardenRefs.BitwardenReference)
    requires ttl > 0 && Legal(Init(ttl, clock), steps) && PublishesOnly(steps, good)
    requires At(After(Init(ttl, clock), steps), t).Found?
    ensures var s := After(Init(ttl, clock), steps);
            var i := At(s, t).folders - 1;
            && 0 <= i < |s.syncs|
            && s.syncs[i].endedAt > At(s, t).at - ttl
            && good(s.syncs[i].vault)
            && Answer(s, At(s, t), order, ref) == BitwardenProviders.FetchFromVault(s.syncs[i].vault, order, ref)
  {
    SnapshotConsistency(ttl, clock, steps, t);
    HoldsOnlyAfter(Init(ttl, clock), steps, good);
    hide CacheProtocol.Init, CacheProtocol.After, CacheProtocol.Legal;
    AnswerIsLookup(After(Init(ttl, clock), steps), t, order, ref);
  }

  lemma AnswerIsLookup(s: State, t: Thread, order: seq<string>, ref: BitwardenRefs.BitwardenReference)
    requires At(s, t).Found? && 1 <= At(s, t).folders == At(s, t).items <= |s.syncs|
    ensures Answer(s, At(s, t), order, ref)
         == BitwardenProviders.FetchFromVault(s.syncs[At(s, t).folders - 1].vault, order, ref)
  {
    hide BitwardenProviders.FetchFromVault;
  }

  // ----- against the plaintext vaults -----

  /** env is a server that keeps these folders and items, sealed for the account. */
  ghost predicate Keeps(p: Primitives, email: string, password: string, env: BitwardenClients.AuthEnv,
                        folders: seq<Folder>, items: seq<DecryptedItem>) {
    && env.prelogin.Some? && env.prelogin.value.kdf == 0 && env.token.Some?
    && exists key: seq<byte>, iv: Block, response: SyncResponse, n: nat ::
         SealedFor(p, email, password, env, key, iv, folders, items, response, n)
  }

  ghost predicate SealedFor(p: Primitives, email: string, password: string, env: BitwardenClients.AuthEnv, key: seq<byte>, iv: Block,
                            folders: seq<Folder>, items: seq<DecryptedItem>, response: SyncResponse, n: nat)
    requires env.prelogin.Some? && env.token.Some?
  {
    var k := BitwardenClients.StretchedKeys(p, email, password, env.prelogin.value.iterations);
    && |key| == BitwardenClients.SYMMETRIC_KEY_LENGTH
    && env.token.value.key == Seal(p, k.enc, k.mac.value, iv, key)
    && BitwardenClients.VaultSealed(p, Keys(key[..32], Some(key[32..])), folders, items, response)
    && BitwardenClients.AnsweredAt(env.sync, response, 0, n)
  }

  /** v is what an authentication against a server that keeps folders and items recovers. */
  ghost predicate RecoveredFrom(p: Primitives, email: string, password: string, v: Vault,
                                folders: seq<Folder>, items: seq<DecryptedItem>) {
    exists env :: Keeps(p, email, password, env, folders, items)
                  && BitwardenClients.AuthResult(p, email, password, env) == Ok(v)
  }

  /** v is recovered from a server that keeps some vault with unique folders. */
  ghost predicate Recovered(p: Primitives, email: string, password: string, v: Vault) {
    exists folders, items :: BitwardenProviders.UniqueFolders(folders) && RecoveredFrom(p, email, password, v, folders, items)
  }

  lemma RecoveredIsPlain(p: Primitives, email: string, password: string, v: Vault, folders: seq<Folder>, items: seq<DecryptedItem>)
    requires Lawful(p) && RecoveredFrom(p, email, password, v, folders, items)
    ensures v == BitwardenClients.Vault(FolderMap(folders), items)
  {
    var env :| Keeps(p, email, password, env, folders, items) && BitwardenClients.AuthResult(p, email, password, env) == Ok(v);
    var key, iv: Block, response, n: nat :| SealedFor(p, email, password, env, key, iv, folders, items, response, n);
    BitwardenClients.AuthenticationRecoversVault(p, email, password, env, key, iv, folders, items, response, n);
  }

  lemma PlainOf(p: Primitives, email: string, password: string, v: Vault)
    returns (folders: seq<Folder>, items: seq<DecryptedItem>)
    requires Recovered(p, email, password, v)
    ensures BitwardenProviders.UniqueFolders(folders) && RecoveredFrom(p, email, password, v, folders, items)
  {
    folders, items :| BitwardenProviders.UniqueFolders(folders) && RecoveredFrom(p, email, password, v, folders, items);
  }

  /**
   * The whole of it: when every authentication of the run meets a server that
   * keeps some sealed vault with unique folders, each call that gets through
   * answers as one of those plaintext vaults does, in any map order and whatever
   * the vault was changed to in between.
   */
  lemma ConcurrentEndToEnd(p: Primitives, email: string, password: string, ttl: int, clock: nat, steps: seq<Step>, t: Thread,
                           order: map<string, string> -> seq<string>, ref: BitwardenRefs.BitwardenReference)
    returns (i: nat, folders: seq<Folder>, items: seq<DecryptedItem>)
    requires Lawful(p) && ttl > 0 && Legal(Init(ttl, clock), steps)
    requires PublishesOnly(steps, v => Recovered(p, email, password, v))
    requires At(After(Init(ttl, clock), steps), t).Found?
    requires forall m :: Iterates(order(m), m)
    ensures var s := After(Init(ttl, clock), steps);
            && i < |s.syncs| && s.syncs[i].endedAt > At(s, t).at - ttl
            && RecoveredFrom(p, email, password, s.syncs[i].vault, folders, items)
            && BitwardenProviders.PlainAnswer(folders, items, ref.folder, ref.itemName, ref.field,
                 Answer(s, At(s, t), order(FolderMap(folders)), ref))
  {
    hide Answer, Recovered, RecoveredFrom, CacheProtocol.Init, CacheProtocol.Legal, CacheProtocol.After;
    hide BitwardenProviders.FetchFromVault, BitwardenProviders.PlainAnswer, CacheProtocol.At, Lawful;
    var s := After(Init(ttl, clock), steps);
    var good := v => Recovered(p, email, password, v);
    AnswersFromOneVault(ttl, clock, steps, t, good, [], ref);
    i := At(s, t).folders - 1;
    assert Recovered(p, email, password, s.syncs[i].vault);
    folders, items := PlainOf(p, email, password, s.syncs[i].vault);
    RecoveredIsPlain(p, email, password, s.syncs[i].vault, folders, items);
    AnswersFromOneVault(ttl, clock, steps, t, good, order(FolderMap(folders)), ref);
    BitwardenProviders.FetchAnswers(folders, items, order(FolderMap(folders)), ref);
  }
}
