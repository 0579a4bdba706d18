/** The vault client: key handling, sync with retries, and the cache (internal/provider/bitwarden_client.go). */
module BitwardenClients {
  import opened Wrappers
  import opened Base64
  import opened Ciphers
  import opened CipherStrings
  import opened VaultItems
  import opened VaultDecryption
  import opened GoMaps
  import Backoff

  const MAX_RETRIES: nat := 3
  const DEFAULT_CACHE_TTL: int := 300_000_000_000
  const SYMMETRIC_KEY_LENGTH: nat := 64

  datatype ClientError =
    | PreloginFailed
    | UnsupportedKdf(kdf: int)
    | LoginFailed
    | SymmetricKey(cause: CryptoError)
    | Cancelled
    | RequestNotBuilt
    | TransportFailed
    | SyncStatus(status: int)
    | SyncNotDecoded
    | RetriesExhausted(last: ClientError)
    | FolderName(cause: CryptoError)
    | ItemNotDecrypted(cause: CryptoError)
    | FolderNotFound
    | ItemNotFound

  // ----- the server and the clock, as inputs -----

  /** What one request comes back with; `body` is None when it does not decode. */
  datatype Reply = TransportError | Reply(status: int, body: Option<SyncResponse>)

  datatype SyncEnv = SyncEnv(
    buildable: bool,               // http.NewRequestWithContext succeeds
    reply: nat -> Reply,           // to the i-th request
    cancelled: nat -> bool,        // ctx is done during the sleep before the i-th request
    now: int                       // when the cache is written
  )

  datatype Prelogin = Prelogin(kdf: int, iterations: int)

  datatype Token = Token(accessToken: string, expiresIn: int, key: string)

  datatype AuthEnv = AuthEnv(prelogin: Option<Prelogin>, token: Option<Token>, loginAt: int, sync: SyncEnv)

  // ----- requesting the vault -----

  /** isRetryableError, for a reply */
  predicate Retryable(r: Reply) {
    r.TransportError? || r.status == 429 || r.status >= 500
  }

  function RetryCause(r: Reply): ClientError
    requires Retryable(r)
  {
    if r.TransportError? then TransportFailed else SyncStatus(r.status)
  }

  /** The request loop from a given attempt on. */
  function FetchFrom(env: SyncEnv, attempt: nat, last: ClientError): Result<SyncResponse, ClientError>
    requires attempt <= MAX_RETRIES + 1
    decreases MAX_RETRIES + 1 - attempt
  {
    if attempt > MAX_RETRIES then Failure(RetriesExhausted(last))
    else if attempt > 0 && env.cancelled(attempt) then Failure(Cancelled)
    else if !env.buildable then Failure(RequestNotBuilt)
    else
      var r := env.reply(attempt);
      if Retryable(r) then FetchFrom(env, attempt + 1, RetryCause(r))
      else if r.status != 200 then Failure(SyncStatus(r.status))
      else if r.body.None? then Failure(SyncNotDecoded)
      else Success(r.body.value)
  }

  /** The n-th request is made and answers with the vault. */
  ghost predicate AnsweredAt(env: SyncEnv, response: SyncResponse, from: nat, n: nat) {
    && from <= n <= 3
    && env.buildable
    && (forall i :: from <= i < n ==>
          env.reply(i).TransportError? || env.reply(i).status == 429 || env.reply(i).status >= 500)
    && (forall i :: from <= i <= n && i > 0 ==> !env.cancelled(i))
    && env.reply(n) == Reply(200, Some(response))
  }

  /** A sync gets the vault exactly when one of its at most four requests does, after retryable failures only. */
  lemma {:induction false} FetchIff(env: SyncEnv, attempt: nat, last: ClientError, response: SyncResponse)
    requires attempt <= MAX_RETRIES + 1
    ensures FetchFrom(env, attempt, last) == Success(response) <==> exists n :: AnsweredAt(env, response, attempt, n)
    decreases MAX_RETRIES + 1 - attempt
  {
    if attempt <= MAX_RETRIES && !(attempt > 0 && env.cancelled(attempt)) && env.buildable {
      var r := env.reply(attempt);
      if Retryable(r) {
        FetchIff(env, attempt + 1, RetryCause(r), response);
        var next := attempt + 1;
        if n :| AnsweredAt(env, response, attempt, n) {
          assert AnsweredAt(env, response, next, n);
        }
        if n :| AnsweredAt(env, response, next, n) {
          assert AnsweredAt(env, response, attempt, n);
        }
      } else if FetchFrom(env, attempt, last) == Success(response) {
        assert AnsweredAt(env, response, attempt, attempt);
      }
    }
  }

  // ----- the whole sync and authentication, as functions of the inputs -----

  datatype Vault = Vault(folders: map<string, string>, items: seq<DecryptedItem>)

  function DecryptVault(p: Primitives, k: Keys, response: SyncResponse): Outcome<Vault, ClientError> {
    match DecryptFolders(p, k, response.folders)
    case Err(e) => Err(FolderName(e))
    case Panic => Panic
    case Ok(folders) =>
      match DecryptCiphers(p, k, response.ciphers)
      case Err(e) => Err(ItemNotDecrypted(e))
      case Panic => Panic
      case Ok(items) => Ok(Vault(folders, items))
  }

  function SyncResult(p: Primitives, k: Keys, env: SyncEnv): Outcome<Vault, ClientError> {
    match FetchFrom(env, 0, Cancelled)
    case Failure(e) => Err(e)
    case Success(response) => DecryptVault(p, k, response)
  }

  /** Everything that a sync needs opens, and nothing else in it panics. */
  predicate VaultOpens(p: Primitives, k: Keys, response: SyncResponse) {
    && FoldersOpen(p, k, response.folders, |response.folders|)
    && CiphersOpen(p, k, response.ciphers, |response.ciphers|)
  }

  /** The first text to be opened in vain panics: a folder name, or after the folders some text of an item. */
  ghost predicate VaultPanics(p: Primitives, k: Keys, response: SyncResponse) {
    var folders, ciphers := response.folders, response.ciphers;
    || (exists i :: 0 <= i < |folders| && FoldersOpen(p, k, folders, i) && Open(p, k, folders[i].name).Panic?)
    || (FoldersOpen(p, k, folders, |folders|)
        && exists i :: 0 <= i < |ciphers| && CiphersOpen(p, k, ciphers, i) && DecryptCipher(p, k, ciphers[i]).Panic?)
  }

  ghost predicate Answered(env: SyncEnv, response: SyncResponse) {
    exists n :: AnsweredAt(env, response, 0, n)
  }

  /**
   * A sync publishes a vault if and only if a request is answered with one of
   * which every folder and item decrypts; it panics if and only if it is answered
   * with one whose first bad text panics. In all other cases it fails.
   */
  lemma SyncOutcomeIff(p: Primitives, k: Keys, env: SyncEnv)
    ensures SyncResult(p, k, env).Ok? <==> exists response :: Answered(env, response) && VaultOpens(p, k, response)
    ensures SyncResult(p, k, env).Panic? <==> exists response :: Answered(env, response) && VaultPanics(p, k, response)
  {
    hide FetchFrom, AnsweredAt, VaultOpens, VaultPanics, DecryptVault;
    var fetched := FetchFrom(env, 0, Cancelled);
    forall response
      ensures Answered(env, response) <==> fetched == Success(response)
    {
      FetchIff(env, 0, Cancelled, response);
    }
    if fetched.Success? {
      assert Answered(env, fetched.value);
      VaultOutcome(p, k, fetched.value);
    }
  }

  lemma VaultOutcome(p: Primitives, k: Keys, response: SyncResponse)
    ensures DecryptVault(p, k, response).Ok? <==> VaultOpens(p, k, response)
    ensures DecryptVault(p, k, response).Panic? <==> VaultPanics(p, k, response)
  {
    FoldersOutcome(p, k, response.folders);
    CiphersOutcome(p, k, response.ciphers);
    hide Open, DecryptCipher, DecryptFolders, DecryptCiphers;
  }

  function SplitKey(plain: Outcome<seq<byte>, CryptoError>): Outcome<Keys, ClientError> {
    match plain
    case Err(e) => Err(SymmetricKey(e))
    case Panic => Panic
    case Ok(key) =>
      if |key| != SYMMETRIC_KEY_LENGTH then Err(SymmetricKey(SymmetricKeyLength(|key|)))
      else Ok(Keys(key[..32], Some(key[32..])))
  }

  function StretchedKeys(p: Primitives, email: string, password: string, iterations: int): Keys {
    var master := p.masterKey(password, email, iterations);
    Keys(p.stretch(master, "enc"), Some(p.stretch(master, "mac")))
  }

  predicate KdfSupported(env: AuthEnv) {
    env.prelogin.Some? && env.prelogin.value.kdf == 0
  }

  function AuthKeys(p: Primitives, email: string, password: string, env: AuthEnv): Outcome<Keys, ClientError> {
    if env.prelogin.None? then Err(PreloginFailed)
    else if env.prelogin.value.kdf != 0 then Err(UnsupportedKdf(env.prelogin.value.kdf))
    else if env.token.None? then Err(LoginFailed)
    else
      var k := StretchedKeys(p, email, password, env.prelogin.value.iterations);
      SplitKey(Decrypt(p, env.token.value.key, k.enc, k.mac))
  }

  /**
   * The keys of an authentication, spelled out: PBKDF2 is asked for, the reply's
   * key is decrypted under the "enc" and "mac" expansions of the master key, and
   * the 64 bytes are split in the middle.
   */
  lemma AuthKeysIff(p: Primitives, email: string, password: string, env: AuthEnv, k: Keys)
    ensures AuthKeys(p, email, password, env) == Ok(k)
       <==> && env.prelogin.Some? && env.prelogin.value.kdf == 0 && env.token.Some?
            && var master := p.masterKey(password, email, env.prelogin.value.iterations);
               var plain := Decrypt(p, env.token.value.key, p.stretch(master, "enc"), Some(p.stretch(master, "mac")));
               plain.Ok? && |plain.value| == 64 && k == Keys(plain.value[..32], Some(plain.value[32..]))
  {
    hide Decrypt;
  }

  function AuthResult(p: Primitives, email: string, password: string, env: AuthEnv): Outcome<Vault, ClientError> {
    var k :- AuthKeys(p, email, password, env);
    SyncResult(p, k, env.sync)
  }

  /** response is the upload of these folders and items under k. */
  ghost predicate VaultSealed(p: Primitives, k: Keys, folders: seq<Folder>, items: seq<DecryptedItem>, response: SyncResponse) {
    FoldersSealed(p, k, folders, response.folders) && ItemsSealed(p, k, items, response.ciphers)
  }

  lemma VaultRecovered(p: Primitives, k: Keys, folders: seq<Folder>, items: seq<DecryptedItem>, response: SyncResponse)
    requires GoodKeys(p, k) && VaultSealed(p, k, folders, items, response)
    ensures DecryptVault(p, k, response) == Ok(Vault(FolderMap(folders), items))
  {
    FoldersRecovered(p, k, folders, response.folders);
    ItemsRecovered(p, k, items, response.ciphers);
  }

  /**
   * From the password to the plaintext: when the server keeps a 64-byte key
   * sealed under the stretched master key and a vault sealed under the halves of
   * that key, authentication recovers exactly that vault, provided one of the
   * sync requests is answered.
   */
  lemma AuthenticationRecoversVault(p: Primitives, email: string, password: string, env: AuthEnv, key: seq<byte>, iv: Block,
                                    folders: seq<Folder>, items: seq<DecryptedItem>, response: SyncResponse, n: nat)
    requires Lawful(p) && |key| == SYMMETRIC_KEY_LENGTH
    requires env.prelogin.Some? && env.prelogin.value.kdf == 0 && env.token.Some?
    requires var k := StretchedKeys(p, email, password, env.prelogin.value.iterations);
             env.token.value.key == Seal(p, k.enc, k.mac.value, iv, key)
    requires VaultSealed(p, Keys(key[..32], Some(key[32..])), folders, items, response)
    requires AnsweredAt(env.sync, response, 0, n)
    ensures AuthKeys(p, email, password, env) == Ok(Keys(key[..32], Some(key[32..])))
    ensures AuthResult(p, email, password, env) == Ok(Vault(FolderMap(folders), items))
  {
    var k := StretchedKeys(p, email, password, env.prelogin.value.iterations);
    DecryptSeal(p, k.enc, k.mac.value, iv, key);
    FetchIff(env.sync, 0, Cancelled, response);
    VaultRecovered(p, Keys(key[..32], Some(key[32..])), folders, items, response);
  }

  // ----- lookup -----

  /** The ID that the iteration in this order finds for a folder name, "" for none. */
  function FolderId(folders: map<string, string>, order: seq<string>, name: string): string {
    if order == [] then ""
    else if order[0] in folders && folders[order[0]] == name then order[0]
    else FolderId(folders, order[1..], name)
  }

  predicate Matches(item: DecryptedItem, folderId: string, name: string) {
    item.folderId == Some(folderId) && item.name == name
  }

  function FirstItem(items: seq<DecryptedItem>, folderId: string, name: string): Option<DecryptedItem> {
    if items == [] then None
    else if Matches(items[0], folderId, name) then Some(items[0])
    else FirstItem(items[1..], folderId, name)
  }

  function Find(v: Vault, order: seq<string>, folderName: string, itemName: string): Result<DecryptedItem, ClientError> {
    FindIn(v.items, FolderId(v.folders, order, folderName), itemName)
  }

  function FindIn(items: seq<DecryptedItem>, folderId: string, itemName: string): Result<DecryptedItem, ClientError> {
    if folderId == "" then Failure(FolderNotFound)
    else
      match FirstItem(items, folderId, itemName)
      case None => Failure(ItemNotFound)
      case Some(item) => Success(item)
  }

  lemma {:induction false} FolderIdNamed(folders: map<string, string>, order: seq<string>, name: string)
    ensures var id := FolderId(folders, order, name);
            || (id in order && id in folders && folders[id] == name)
            || (id == "" && forall i :: i in order && i in folders ==> folders[i] != name)
  {
    if order != [] && !(order[0] in folders && folders[order[0]] == name) {
      FolderIdNamed(folders, order[1..], name);
    }
  }

  ghost predicate Named(folders: map<string, string>, id: string, name: string) {
    id in folders && folders[id] == name
  }

  /** The lookup does not depend on Go's map iteration order exactly when all folders of the name answer alike. */
  lemma FindIsOneAnswerIff(v: Vault, folderName: string, itemName: string)
    ensures (forall o1, o2 :: Iterates(o1, v.folders) && Iterates(o2, v.folders) ==>
               Find(v, o1, folderName, itemName) == Find(v, o2, folderName, itemName))
       <==> (forall i, j :: Named(v.folders, i, folderName) && Named(v.folders, j, folderName) ==>
               FindIn(v.items, i, itemName) == FindIn(v.items, j, itemName))
  {
    if forall i, j :: Named(v.folders, i, folderName) && Named(v.folders, j, folderName) ==>
         FindIn(v.items, i, itemName) == FindIn(v.items, j, itemName)
    {
      forall o1, o2 | Iterates(o1, v.folders) && Iterates(o2, v.folders)
        ensures Find(v, o1, folderName, itemName) == Find(v, o2, folderName, itemName)
      {
        SameAnswer(v, o1, o2, folderName, itemName);
      }
    } else {
      var i, j :| Named(v.folders, i, folderName) && Named(v.folders, j, folderName)
                  && FindIn(v.items, i, itemName) != FindIn(v.items, j, itemName);
      var o1 := OrderStartingWith(v.folders, i, folderName);
      var o2 := OrderStartingWith(v.folders, j, folderName);
      assert Find(v, o1, folderName, itemName) == FindIn(v.items, i, itemName);
      assert Find(v, o2, folderName, itemName) == FindIn(v.items, j, itemName);
    }
  }

  lemma SameAnswer(v: Vault, o1: seq<string>, o2: seq<string>, folderName: string, itemName: string)
    requires Iterates(o1, v.folders) && Iterates(o2, v.folders)
    requires forall i, j :: Named(v.folders, i, folderName) && Named(v.folders, j, folderName) ==>
               FindIn(v.items, i, itemName) == FindIn(v.items, j, itemName)
    ensures Find(v, o1, folderName, itemName) == Find(v, o2, folderName, itemName)
  {
    var i, j := FolderId(v.folders, o1, folderName), FolderId(v.folders, o2, folderName);
    FolderIdNamed(v.folders, o1, folderName);
    FolderIdNamed(v.folders, o2, folderName);
    assert Named(v.folders, i, folderName) <==> Named(v.folders, j, folderName) by {
      assert i in o1 ==> i in o2;
      assert j in o2 ==> j in o1;
    }
  }

  lemma OrderStartingWith(folders: map<string, string>, id: string, name: string) returns (order: seq<string>)
    requires Named(folders, id, name)
    ensures Iterates(order, folders) && FolderId(folders, order, name) == id
  {
    var rest := EnumerateSet(folders.Keys - {id});
    order := [id] + rest;
  }

  /** A folder that answers "no such item". */
  ghost predicate LacksItem(v: Vault, id: string, itemName: string) {
    id != "" && forall i :: 0 <= i < |v.items| ==> v.items[i].folderId != Some(id) || v.items[i].name != itemName
  }

  /** i is the first item with this folder ID and this name. */
  ghost predicate IsFirstMatch(items: seq<DecryptedItem>, folderId: string, name: string, i: int) {
    && 0 <= i < |items|
    && items[i].folderId == Some(folderId) && items[i].name == name
    && forall j :: 0 <= j < i ==> items[j].folderId != Some(folderId) || items[j].name != name
  }

  lemma {:induction false} FirstItemIs(items: seq<DecryptedItem>, folderId: string, name: string)
    ensures forall i :: IsFirstMatch(items, folderId, name, i) ==> FirstItem(items, folderId, name) == Some(items[i])
    ensures match FirstItem(items, folderId, name)
            case Some(_) => exists i :: IsFirstMatch(items, folderId, name, i)
            case None => forall i :: 0 <= i < |items| ==> items[i].folderId != Some(folderId) || items[i].name != name
  {
    if items != [] {
      if Matches(items[0], folderId, name) {
        assert IsFirstMatch(items, folderId, name, 0);
      } else {
        FirstItemIs(items[1..], folderId, name);
        forall i
          ensures IsFirstMatch(items, folderId, name, i) <==> IsFirstMatch(items[1..], folderId, name, i - 1)
        {
          FirstMatchShifts(items, folderId, name, i);
        }
        if i :| IsFirstMatch(items[1..], folderId, name, i) {
          assert IsFirstMatch(items, folderId, name, i + 1);
        }
        assert forall i :: 1 <= i < |items| ==> items[i] == items[1..][i - 1];
      }
    }
  }

  lemma FirstMatchShifts(items: seq<DecryptedItem>, folderId: string, name: string, i: int)
    requires items != [] && !Matches(items[0], folderId, name)
    ensures IsFirstMatch(items, folderId, name, i) <==> IsFirstMatch(items[1..], folderId, name, i - 1)
  {
    assert forall j :: 1 <= j < |items| ==> items[j] == items[1..][j - 1];
  }

  /**
   * What a lookup answers, on the fields of the vault: no folder when none has
   * the name or one with an empty ID has it, and otherwise, for one of the
   * folders that have it, its first item of the name, or no item.
   */
  lemma FindAnswers(v: Vault, order: seq<string>, folderName: string, itemName: string)
    requires Iterates(order, v.folders)
    ensures match Find(v, order, folderName, itemName)
            case Failure(FolderNotFound) =>
              (forall id :: id in v.folders ==> v.folders[id] != folderName) || ("" in v.folders && v.folders[""] == folderName)
            case Failure(ItemNotFound) =>
              exists id :: Named(v.folders, id, folderName) && LacksItem(v, id, itemName)
            case Success(item) =>
              exists id, i :: Named(v.folders, id, folderName) && IsFirstMatch(v.items, id, itemName, i) && item == v.items[i]
            case _ => false
  {
    var id := FolderId(v.folders, order, folderName);
    FolderIdNamed(v.folders, order, folderName);
    FirstItemIs(v.items, id, itemName);
    if id in v.folders && v.folders[id] == folderName {
      assert Named(v.folders, id, folderName);
    }
  }

  /** Two different folders answer alike only when neither has the item. */
  lemma AnswersAlike(v: Vault, i: string, j: string, itemName: string)
    requires i != j
    ensures FindIn(v.items, i, itemName) == FindIn(v.items, j, itemName)
       <==> LacksItem(v, i, itemName) && LacksItem(v, j, itemName)
  {
    FirstItemIs(v.items, i, itemName);
    FirstItemIs(v.items, j, itemName);
    assert forall x :: IsFirstMatch(v.items, i, itemName, x) ==> v.items[x].folderId == Some(i);
    assert forall x :: IsFirstMatch(v.items, j, itemName, x) ==> v.items[x].folderId == Some(j);
  }

  /**
   * The lookup gives the same answer for every map iteration order if and only
   * if at most one folder has the name, or none of those that have it has an
   * item of the requested name or an empty ID.
   */
  lemma FindIsDeterministicIff(v: Vault, folderName: string, itemName: string)
    ensures (forall o1, o2 :: Iterates(o1, v.folders) && Iterates(o2, v.folders) ==>
               Find(v, o1, folderName, itemName) == Find(v, o2, folderName, itemName))
       <==> || (forall i, j :: Named(v.folders, i, folderName) && Named(v.folders, j, folderName) ==> i == j)
            || (forall i :: Named(v.folders, i, folderName) ==> LacksItem(v, i, itemName))
  {
    FindIsOneAnswerIff(v, folderName, itemName);
    forall i, j | i != j
      ensures FindIn(v.items, i, itemName) == FindIn(v.items, j, itemName)
         <==> LacksItem(v, i, itemName) && LacksItem(v, j, itemName)
    {
      AnswersAlike(v, i, j, itemName);
    }
    hide LacksItem, FindIn, Find, Named;
    if i, j :| Named(v.folders, i, folderName) && Named(v.folders, j, folderName) && i != j {
      assert FindIn(v.items, i, itemName) == FindIn(v.items, j, itemName)
        <==> LacksItem(v, i, itemName) && LacksItem(v, j, itemName);
    }
  }

  /** For instance with the item in one of two folders of one name: it is found, or not. */
  lemma TwoFoldersOneName(item: DecryptedItem) returns (v: Vault, o1: seq<string>, o2: seq<string>)
    requires item.folderId == Some("1") && item.name == "b"
    ensures v.folders == map["1" := "a", "2" := "a"] && v.items == [item]
    ensures Iterates(o1, v.folders) && Find(v, o1, "a", "b") == Success(item)
    ensures Iterates(o2, v.folders) && Find(v, o2, "a", "b") == Failure(ItemNotFound)
  {
    v := Vault(map["1" := "a", "2" := "a"], [item]);
    o1, o2 := ["1", "2"], ["2", "1"];
    assert FolderId(v.folders, o2, "a") == "2" && FolderId(v.folders, o1, "a") == "1";
    assert [item][1..] == [] && !Matches(item, "2", "b");
    assert FirstItem([item], "2", "b") == None;
  }

  // ----- the client -----

  class BitwardenClient {
    const p: Primitives
    const email: string
    const cacheTTL: int

    var masterKey: seq<byte>
    var stretched: Option<Keys>      // stretchedEnc and stretchedMac
    var sym: Keys                    // symKey and symMac
    var accessToken: string
    var tokenExpiry: int
    var folders: map<string, string>
    var items: seq<DecryptedItem>
    var expiry: int

    constructor (p: Primitives, email: string)
      ensures this.p == p && this.email == email && cacheTTL == 300 * Backoff.SECOND
      ensures accessToken == "" && folders == map[] && items == []
    {
      this.p, this.email, cacheTTL := p, email, DEFAULT_CACHE_TTL;
      masterKey, stretched, sym := [], None, Keys([], None);
      accessToken, tokenExpiry := "", 0;
      folders, items, expiry := map[], [], 0;
    }

    predicate IsCacheValid(now: int)
      reads this`expiry
    {
      now < expiry
    }

    predicate IsAuthenticated(now: int)
      reads this`accessToken, this`tokenExpiry
    {
      accessToken != "" && now < tokenExpiry
    }

    method DeriveKeys(password: string, iterations: int)
      modifies this`masterKey, this`stretched
      ensures masterKey == p.masterKey(password, email, iterations)
      ensures var master := p.masterKey(password, email, iterations);
              stretched == Some(Keys(p.stretch(master, "enc"), Some(p.stretch(master, "mac"))))
    {
      var derived := p.masterKey(password, email, iterations);
      masterKey := derived;
      stretched := Some(Keys(p.stretch(derived, "enc"), Some(p.stretch(derived, "mac"))));
    }

    /** The key pair becomes the halves of the decrypted key, or stays as it was. */
    method DecryptSymmetricKey(encryptedKey: string) returns (r: Outcome<(), ClientError>)
      requires stretched.Some?
      modifies this`sym
      ensures match Decrypt(p, encryptedKey, stretched.value.enc, stretched.value.mac)
              case Ok(key) =>
                if |key| == 64 then r == Ok(()) && sym == Keys(key[..32], Some(key[32..]))
                else r == Err(SymmetricKey(SymmetricKeyLength(|key|))) && sym == old(sym)
              case Err(e) => r == Err(SymmetricKey(e)) && sym == old(sym)
              case Panic => r == Panic && sym == old(sym)
    {
      var plaintext := DecryptCipherString(p, encryptedKey, stretched.value.enc, stretched.value.mac);
      match plaintext
      case Err(e) => return Err(SymmetricKey(e));
      case Panic => return Panic;
      case Ok(key) =>
        if |key| != SYMMETRIC_KEY_LENGTH {
          return Err(SymmetricKey(SymmetricKeyLength(|key|)));
        }
        sym := Keys(key[..32], Some(key[32..]));
        return Ok(());
    }

    /**
     * The request loop, with what it costs: at most four requests, each but the
     * last with a retryable outcome, and between two requests a sleep that doubles
     * from one second.
     */
    method RequestVault(env: SyncEnv) returns (r: Result<SyncResponse, ClientError>, requests: nat, sleeps: nat, slept: int)
      ensures r == FetchFrom(env, 0, Cancelled)
      ensures requests <= 4 && sleeps <= 3
      ensures forall i :: 0 <= i < requests - 1 ==>
                env.reply(i).TransportError? || env.reply(i).status == 429 || env.reply(i).status >= 500
      ensures slept == [0, 1, 3, 7][sleeps] * Backoff.SECOND
      ensures sleeps == requests || sleeps == requests - 1
      ensures sleeps == requests ==> r in {Failure(Cancelled), Failure(RequestNotBuilt)}
      ensures r.Failure? && r.error.RetriesExhausted? ==> requests == 4
    {
      var attempt, lastErr := 0, Cancelled;
      requests, sleeps, slept := 0, 0, 0;
      while attempt <= MAX_RETRIES
        invariant attempt <= MAX_RETRIES + 1 && requests == attempt
        invariant sleeps == if attempt == 0 then 0 else attempt - 1
        invariant slept == [0, 1, 3, 7][sleeps] * Backoff.SECOND
        invariant forall i :: 0 <= i < attempt ==> Retryable(env.reply(i))
        invariant FetchFrom(env, 0, Cancelled) == FetchFrom(env, attempt, lastErr)
      {
        if attempt > 0 {
          SleepTime(attempt - 1);
          slept := slept + Backoff.ShiftDelay(attempt - 1);
          sleeps := sleeps + 1;
          if env.cancelled(attempt) {
            return Failure(Cancelled), requests, sleeps, slept;
          }
        }
        if !env.buildable {
          return Failure(RequestNotBuilt), requests, sleeps, slept;
        }
        var reply := env.reply(attempt);
        requests := requests + 1;
        if Retryable(reply) {
          lastErr := RetryCause(reply);
          attempt := attempt + 1;
          continue;
        }
        if reply.status != 200 {
          return Failure(SyncStatus(reply.status)), requests, sleeps, slept;
        }
        if reply.body.None? {
          return Failure(SyncNotDecoded), requests, sleeps, slept;
        }
        return Success(reply.body.value), requests, sleeps, slept;
      }
      return Failure(RetriesExhausted(lastErr)), requests, sleeps, slept;
    }

    static lemma SleepTime(i: nat)
      requires i <= 2
      ensures Backoff.ShiftDelay(i) == [1, 2, 4][i] * Backoff.SECOND
    {
      assert Backoff.Pow2(0) == 1 && Backoff.Pow2(1) == 2 && Backoff.Pow2(2) == 4;
    }

    /** The folder loop of SyncVault; a later folder with the same ID overwrites. */
    method DecryptFolderNames(synced: seq<SyncFolder>) returns (r: Outcome<map<string, string>, CryptoError>)
      ensures r == DecryptFolders(p, sym, synced)
    {
      var names: map<string, string> := map[];
      for i := 0 to |synced|
        invariant DecryptFolders(p, sym, synced[..i]) == Ok(names)
      {
        assert synced[..i + 1][..i] == synced[..i];
        var name := Open(p, sym, synced[i].name);
        if !name.Ok? {
          FoldersFailAt(p, sym, synced, i);
          return if name.Err? then Err(name.error) else Panic;
        }
        names := names[synced[i].id := name.value];
      }
      assert synced[..|synced|] == synced;
      return Ok(names);
    }

    /** The item loop of SyncVault. */
    method DecryptItems(synced: seq<Cipher>) returns (r: Outcome<seq<DecryptedItem>, CryptoError>)
      ensures r == DecryptCiphers(p, sym, synced)
    {
      var decrypted: seq<DecryptedItem> := [];
      for i := 0 to |synced|
        invariant DecryptCiphers(p, sym, synced[..i]) == Ok(decrypted)
      {
        assert synced[..i + 1][..i] == synced[..i];
        var item := DecryptCipher(p, sym, synced[i]);
        if !item.Ok? {
          CiphersFailAt(p, sym, synced, i);
          return if item.Err? then Err(item.error) else Panic;
        }
        DecryptOneMore(p, sym, synced[..i + 1], decrypted, item.value);
        decrypted := decrypted + [item.value];
      }
      assert synced[..|synced|] == synced;
      return Ok(decrypted);
    }

    /** A sync publishes the whole decrypted vault or leaves the cache alone. */
    method SyncVault(env: SyncEnv) returns (r: Outcome<(), ClientError>)
      modifies this`folders, this`items, this`expiry
      ensures match SyncResult(p, sym, env)
              case Ok(v) => r == Ok(()) && folders == v.folders && items == v.items && expiry == env.now + cacheTTL
              case Err(e) => r == Err(e) && folders == old(folders) && items == old(items) && expiry == old(expiry)
              case Panic => r == Panic && folders == old(folders) && items == old(items) && expiry == old(expiry)
    {
      var response, _, _, _ := RequestVault(env);
      if response.Failure? {
        return Err(response.error);
      }
      var names := DecryptFolderNames(response.value.folders);
      if !names.Ok? {
        return if names.Err? then Err(FolderName(names.error)) else Panic;
      }
      var decrypted := DecryptItems(response.value.ciphers);
      if !decrypted.Ok? {
        return if decrypted.Err? then Err(ItemNotDecrypted(decrypted.error)) else Panic;
      }
      folders, items, expiry := names.value, decrypted.value, env.now + cacheTTL;
      return Ok(());
    }

    /**
     * Authentication publishes the vault it recovers; when it fails the cache is
     * unchanged. What was reached before a failure stays: the keys and the token
     * are those of the last steps that succeeded.
     */
    method Authenticate(password: string, env: AuthEnv) returns (r: Outcome<(), ClientError>)
      modifies this
      ensures match AuthResult(p, email, password, env)
              case Ok(v) =>
                r == Ok(()) && folders == v.folders && items == v.items && expiry == env.sync.now + cacheTTL
              case Err(e) => r == Err(e) && folders == old(folders) && items == old(items) && expiry == old(expiry)
              case Panic => r == Panic && folders == old(folders) && items == old(items) && expiry == old(expiry)
      ensures stretched == if KdfSupported(env) then Some(StretchedKeys(p, email, password, env.prelogin.value.iterations))
                           else old(stretched)
      ensures masterKey == if KdfSupported(env) then p.masterKey(password, email, env.prelogin.value.iterations)
                           else old(masterKey)
      ensures if KdfSupported(env) && env.token.Some? then
                && accessToken == env.token.value.accessToken
                && tokenExpiry == env.loginAt + env.token.value.expiresIn * Backoff.SECOND
              else accessToken == old(accessToken) && tokenExpiry == old(tokenExpiry)
      ensures sym == match AuthKeys(p, email, password, env)
                     case Ok(k) => k
                     case _ => old(sym)
    {
      hide Decrypt, SyncResult;
      if env.prelogin.None? {
        return Err(PreloginFailed);
      }
      var prelogin := env.prelogin.value;
      if prelogin.kdf != 0 {
        return Err(UnsupportedKdf(prelogin.kdf));
      }
      DeriveKeys(password, prelogin.iterations);
      if env.token.None? {
        return Err(LoginFailed);
      }
      accessToken := env.token.value.accessToken;
      tokenExpiry := env.loginAt + env.token.value.expiresIn * Backoff.SECOND;
      var decrypted := DecryptSymmetricKey(env.token.value.key);
      if !decrypted.Ok? {
        return decrypted;
      }
      r := SyncVault(env.sync);
    }

    /** The two loops of FindItem, the first in the order of Go's map iteration. */
    method FindItem(order: seq<string>, folderName: string, itemName: string) returns (r: Result<DecryptedItem, ClientError>)
      requires forall i :: 0 <= i < |order| ==> order[i] in folders
      ensures r == Find(Vault(folders, items), order, folderName, itemName)
    {
      var folderId := "";
      var i := 0;
      while i < |order|
        invariant 0 <= i <= |order| && folderId == ""
        invariant FolderId(folders, order, folderName) == FolderId(folders, order[i..], folderName)
      {
        if folders[order[i]] == folderName {
          folderId := order[i];
          break;
        }
        i := i + 1;
      }
      if folderId == "" {
        return Failure(FolderNotFound);
      }
      var j := 0;
      while j < |items|
        invariant 0 <= j <= |items|
        invariant FirstItem(items, folderId, itemName) == FirstItem(items[j..], folderId, itemName)
      {
        if items[j].folderId.Some? && items[j].folderId.value == folderId && items[j].name == itemName {
          return Success(items[j]);
        }
        j := j + 1;
      }
      return Failure(ItemNotFound);
    }
  }
}
