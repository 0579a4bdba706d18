/**
 * The client's fields as concurrent FetchSecret calls use them. Each method is
 * one check or one field access of a call, and takes one step of CacheProtocol
 * from any state, so every interleaving of the methods is a run of that machine.
 */
module SharedVaults {
  import opened Wrappers
  import opened VaultItems
  import opened CacheProtocol
  import opened CacheTheorems

  /** What the fields stand for in the machine. */
  ghost predicate Represents(s: State, folders: map<string, string>, items: seq<DecryptedItem>, expiry: int, token: Option<int>) {
    && folders == VaultAt(s, s.folders).folders
    && items == VaultAt(s, s.items).items
    && expiry == s.expiry
    && token == s.token
  }

  /** The token's expiry, None while there is no token. */
  function TokenOf(accessToken: string, tokenExpiry: int): Option<int> {
    if accessToken == "" then None else Some(tokenExpiry)
  }

  /** The steps that touch none of the fields. */
  predicate IsSilent(step: Step) {
    !step.Write? && !step.Login?
  }

  lemma SilentKeeps(s: State, step: Step, folders: map<string, string>, items: seq<DecryptedItem>, expiry: int, token: Option<int>)
    requires LocksAgree(s) && CacheAgrees(s) && Enabled(s, step) && IsSilent(step) && Represents(s, folders, items, expiry, token)
    ensures Represents(Apply(s, step), folders, items, expiry, token)
  {
    if step.UnlockCache? {
      assert s.writer == Some(step.t);
    }
  }

  class SharedVault {
    var folders: map<string, string>
    var items: seq<DecryptedItem>
    var expiry: int
    var accessToken: string
    var tokenExpiry: int

    ghost var state: State

    ghost predicate Valid()
      reads this
    {
      Inv(state) && Represents(state, folders, items, expiry, TokenOf(accessToken, tokenExpiry))
    }

    constructor (ghost ttl: int, ghost clock: nat)
      requires ttl > 0
      ensures Valid() && state == Init(ttl, clock)
    {
      folders, items, expiry := map[], [], 0;
      accessToken, tokenExpiry := "", 0;
      state := Init(ttl, clock);
      InitInv(ttl, clock);
    }

    /** Any step that is no access to the fields: the locks, a call, a failure, the passing of time. */
    ghost method Silent(step: Step)
      requires Valid() && Enabled(state, step) && IsSilent(step)
      modifies this`state
      ensures Valid() && state == Apply(old(state), step)
    {
      InvStep(state, step);
      SilentKeeps(state, step, folders, items, expiry, TokenOf(accessToken, tokenExpiry));
      state := Apply(state, step);
    }

    /** IsCacheValid, under cache.mu for reading. */
    method IsCacheValid(ghost t: Thread, now: int) returns (valid: bool)
      requires Valid() && Enabled(state, CheckCache(t)) && now == state.clock
      modifies this`state
      ensures Valid() && state == Apply(old(state), CheckCache(t))
      ensures valid <==> At(state, t).CheckingToken?
      ensures valid <==> now < expiry
    {
      valid := now < expiry;
      Silent(CheckCache(t));
    }

    /** IsAuthenticated, evaluated when the cache was valid. */
    method IsAuthenticated(ghost t: Thread, now: int) returns (valid: bool)
      requires Valid() && Enabled(state, CheckToken(t)) && now == state.clock
      modifies this`state
      ensures Valid() && state == Apply(old(state), CheckToken(t))
      ensures valid <==> At(state, t).Releasing?
      ensures valid <==> accessToken != "" && now < tokenExpiry
    {
      valid := accessToken != "" && now < tokenExpiry;
      Silent(CheckToken(t));
    }

    /** The two assignments at the end of Login, whatever the reply carries. */
    method StoreToken(ghost t: Thread, token: string, expiresAt: int)
      requires Valid() && At(state, t).Authenticating?
      modifies this`state, this`accessToken, this`tokenExpiry
      ensures Valid() && state == Apply(old(state), Login(t, TokenOf(token, expiresAt)))
      ensures accessToken == token && tokenExpiry == expiresAt
    {
      ghost var step := Login(t, TokenOf(token, expiresAt));
      InvStep(state, step);
      accessToken, tokenExpiry := token, expiresAt;
      state := Apply(state, step);
    }

    /** The publishing section of SyncVault, one assignment at a time. */
    method WriteFolders(ghost t: Thread, names: map<string, string>)
      requires Valid() && At(state, t).Publishing? && At(state, t).written == 0 && At(state, t).vault.folders == names
      modifies this`state, this`folders
      ensures Valid() && state == Apply(old(state), Write(t)) && folders == names
    {
      WriteKeeps(t);
      folders := names;
      state := Apply(state, Write(t));
    }

    method WriteItems(ghost t: Thread, decrypted: seq<DecryptedItem>)
      requires Valid() && At(state, t).Publishing? && At(state, t).written == 1 && At(state, t).vault.items == decrypted
      modifies this`state, this`items
      ensures Valid() && state == Apply(old(state), Write(t)) && items == decrypted
    {
      WriteKeeps(t);
      items := decrypted;
      state := Apply(state, Write(t));
    }

    method WriteExpiry(ghost t: Thread, now: int, ttl: int)
      requires Valid() && At(state, t).Publishing? && At(state, t).written == 2
      requires now == state.clock && ttl == state.ttl
      modifies this`state, this`expiry
      ensures Valid() && state == Apply(old(state), Write(t)) && expiry == now + ttl
      ensures folders == At(state, t).vault.folders && items == At(state, t).vault.items
    {
      WriteKeeps(t);
      expiry := now + ttl;
      state := Apply(state, Write(t));
    }

    lemma WriteKeeps(t: Thread)
      requires Valid() && Enabled(state, Write(t))
      ensures Inv(Apply(state, Write(t))) && state.writer == Some(t)
      ensures state.folders == |state.syncs| + (if At(state, t).written == 0 then 0 else 1)
      ensures state.items == |state.syncs| + (if At(state, t).written == 2 then 1 else 0)
    {
      InvStep(state, Write(t));
    }

    /** The first loop of FindItem reads the folders of the sync noted in the machine. */
    method ReadFolderNames(ghost t: Thread) returns (seen: map<string, string>)
      requires Valid() && At(state, t).ReadingFolders?
      modifies this`state
      ensures Valid() && state == Apply(old(state), ReadFolders(t))
      ensures seen == VaultAt(state, At(state, t).folders).folders
    {
      seen := folders;
      Silent(ReadFolders(t));
    }

    /** The second loop of FindItem reads the items of the same sync. */
    method ReadAllItems(ghost t: Thread) returns (seen: seq<DecryptedItem>)
      requires Valid() && At(state, t).ReadingItems?
      modifies this`state
      ensures Valid() && state == Apply(old(state), ReadItems(t))
      ensures seen == VaultAt(state, At(state, t).items).items
      ensures At(state, t).folders == At(state, t).items
    {
      seen := items;
      Silent(ReadItems(t));
      assert Knows(state, At(state, t));
    }
  }
}
